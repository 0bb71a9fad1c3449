// The socket that runs over two rings: ext/easywsclient/socketsharedmemory.cpp.
module SharedSocket {
  import opened Bytes
  import opened Ring
  import opened Spsc
  import Socket

  const SHARED_BUFFER_SIZE: nat := 1024 * 16

  lemma Sizes()
    ensures SHARED_BUFFER_SIZE == 16384 && HEADER_SIZE == 32 && VERSION == 100
  {
  }

  class WsocketSharedMemory {
    var mFirst: bool
    var mSequenceNumber: nat
    const mIsServer: bool
    const mReader: SPSC
    const mWriter: SPSC

    // A server writes the server file and reads the client file, a client the other way round.
    constructor (isServer: bool, serverFile: SharedMemory, clientFile: SharedMemory)
      requires serverFile != clientFile
      requires serverFile.mBase.Length == clientFile.mBase.Length == SHARED_BUFFER_SIZE - HEADER_SIZE
      modifies serverFile, clientFile
      ensures mIsServer == isServer && mFirst && mSequenceNumber == 0
      ensures fresh(mReader) && fresh(mWriter) && mReader != mWriter && mWriter.mIsWriter && !mReader.mIsWriter
      ensures isServer ==>
        && mWriter.mHeader == serverFile && mReader.mHeader == clientFile && mWriter.Valid() && mReader.Valid()
        && mWriter.Contents() == [] && mReader.Contents() == [] && clientFile.mSequenceNumber == 0
        && Ready(serverFile) && Ready(clientFile)
      ensures !isServer ==>
        && mWriter.mHeader == (if old(Matches(clientFile)) then clientFile else null)
        && mReader.mHeader == (if old(Matches(serverFile)) then serverFile else null)
        && unchanged(serverFile)
        && clientFile.mReadIndex == old(clientFile.mReadIndex) && clientFile.mWriteIndex == old(clientFile.mWriteIndex)
        && clientFile.mSequenceNumber == (if old(Matches(clientFile)) then (old(clientFile.mSequenceNumber) + 1) % U32
                                          else old(clientFile.mSequenceNumber))
      ensures !isServer && old(Ready(serverFile)) && old(Ready(clientFile)) ==>
        && mWriter.Valid() && mReader.Valid()
        && serverFile.Contents() == old(serverFile.Contents()) && clientFile.Contents() == old(clientFile.Contents())
    {
      mFirst := true;
      mSequenceNumber := 0;
      mIsServer := isServer;
      mReader := new SPSC();
      mWriter := new SPSC();
      new;
      if isServer {
        var _ := mWriter.Init(serverFile, SHARED_BUFFER_SIZE, true, true);
        var _ := mReader.Init(clientFile, SHARED_BUFFER_SIZE, false, true);
      } else {
        var _ := mWriter.Init(clientFile, SHARED_BUFFER_SIZE, true, false);
        var _ := mReader.Init(serverFile, SHARED_BUFFER_SIZE, false, false);
        var _ := mWriter.IncrementSequenceNumber();
      }
    }

    // Only a server looks for clients, and it finds one once: itself, with a client at the other end.
    method PollServer() returns (found: bool)
      modifies this
      ensures found == (mIsServer && old(mFirst) && mReader.GetSequenceNumber() != old(mSequenceNumber))
      ensures found ==> !mFirst && mSequenceNumber == mReader.GetSequenceNumber()
      ensures !found ==> mFirst == old(mFirst) && mSequenceNumber == old(mSequenceNumber)
    {
      found := false;
      if mIsServer {
        if mReader.GetSequenceNumber() != mSequenceNumber {
          if mFirst {
            mSequenceNumber := mReader.GetSequenceNumber();
            mFirst := false;
            found := true;
          }
        }
      }
    }

    // The number of bytes received, or -1 for none.
    method Receive(dest: array<byte>, at: nat, maxLen: nat) returns (ret: int)
      requires mReader.Valid() && !mReader.mIsWriter && at + maxLen <= dest.Length && dest != mReader.mHeader.mBase
      modifies mReader.mHeader`mReadIndex, dest
      ensures mReader.Valid()
      ensures var n := Min(|old(mReader.Contents())|, maxLen);
              && ret == (if n == 0 then -1 else n)
              && mReader.Contents() == old(mReader.Contents())[n..]
              && dest[..] == Splice(old(dest[..]), at, old(mReader.Contents())[..n])
      ensures !Socket.Breaks(ret, WouldBlock())
    {
      ret := -1;
      var rcount := mReader.Read(dest, at, maxLen);
      if rcount > 0 {
        ret := rcount;
      }
    }

    // The number of bytes taken, or -1 for none.
    method Send(data: seq<byte>) returns (ret: int)
      requires mWriter.Valid() && mWriter.mIsWriter && |data| < U32
      modifies mWriter.mHeader`mWriteIndex, mWriter.mHeader.mBase
      ensures mWriter.Valid()
      ensures var n := Accepted(mWriter.mCapacity, |old(mWriter.Contents())|, |data|);
              && ret == (if n == 0 then -1 else n)
              && mWriter.Contents() == old(mWriter.Contents()) + data[..n]
      ensures !Socket.Breaks(ret, WouldBlock())
    {
      ret := -1;
      var scount := mWriter.Write(data);
      if scount > 0 {
        ret := scount;
      }
    }

    function WouldBlock(): bool {
      true
    }
  }

  // A file of the version and size a client expects.
  predicate Matches(file: SharedMemory)
    reads file
  {
    file.mVersionNumber == VERSION && file.mBufferSize == SHARED_BUFFER_SIZE
  }

  ghost predicate Ready(file: SharedMemory)
    reads file, file.mBase
  {
    Matches(file) && file.Valid()
  }

  // The two ends of one file: what is sent into it while it is empty, up to two bytes less than
  // the ring holds, is what is received.
  method Exchange(from: WsocketSharedMemory, to: WsocketSharedMemory, data: seq<byte>, dest: array<byte>)
    requires from.mWriter.Valid() && from.mWriter.mIsWriter && to.mReader.Valid() && !to.mReader.mIsWriter
    requires from.mWriter.mHeader == to.mReader.mHeader && from.mWriter.Contents() == []
    requires dest != from.mWriter.mHeader.mBase
    requires 0 < |data| == dest.Length && |data| + 2 <= from.mWriter.mCapacity
    modifies from.mWriter.mHeader, from.mWriter.mHeader.mBase, dest
    ensures dest[..] == data
  {
    var sent := from.Send(data);
    assert data[..|data|] == data;
    assert to.mReader.Contents() == [] + data == data;
    var got := to.Receive(dest, 0, dest.Length);
  }
}
