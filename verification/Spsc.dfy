// The ring as a caller on either side uses it: ext/easywsclient/SPSC.h, one call at a time.
// Ring.dfy has the same operations taken apart into interleaved steps.
module Spsc {
  import opened Bytes
  import opened Ring

  const VERSION: nat := 100
  const HEADER_SIZE: nat := 32

  // The block both processes map: a header, then the bytes of the ring.
  class SharedMemory {
    var mVersionNumber: nat
    var mBufferSize: nat
    var mReadIndex: nat
    var mWriteIndex: nat
    var mSequenceNumber: nat
    const mBase: array<byte>

    constructor (maxLen: nat)
      requires HEADER_SIZE < maxLen < U32
      ensures fresh(mBase) && mBase.Length == maxLen - HEADER_SIZE
    {
      mBase := new byte[maxLen - HEADER_SIZE];
    }

    // The two indices delimit a stretch of at most mCapacity - 2 bytes.
    ghost predicate Valid()
      reads this, mBase
    {
      && 0 < mBase.Length < U32
      && mReadIndex <= mBase.Length && mWriteIndex <= mBase.Length
      && (Contents() == [] || |Contents()| + 2 <= mBase.Length)
    }

    ghost function Contents(): seq<byte>
      requires mReadIndex <= mBase.Length && mWriteIndex <= mBase.Length
      reads this, mBase
    {
      Between(mBase[..], mReadIndex, mWriteIndex)
    }
  }

  // The bytes of a copy that starts at an index and may pass the top once.
  function Wrapped(mem: seq<byte>, index: nat, n: nat): seq<byte>
    requires index <= |mem| && n <= |mem|
  {
    if n <= |mem| - index then mem[index..index + n] else mem[index..] + mem[..n - (|mem| - index)]
  }

  lemma ReadSplits(mem: seq<byte>, readIndex: nat, writeIndex: nat, n: nat)
    requires readIndex <= |mem| && writeIndex <= |mem|
    requires n <= |Between(mem, readIndex, writeIndex)| < |mem|
    ensures Between(mem, readIndex, writeIndex)[..n] == Wrapped(mem, readIndex, n)
    ensures Advance(|mem|, readIndex, n) <= |mem|
    ensures Between(mem, Advance(|mem|, readIndex, n), writeIndex) == Between(mem, readIndex, writeIndex)[n..]
  {
  }

  // Memory after a copy into it from an index on.
  function WrappedInto(mem: seq<byte>, index: nat, data: seq<byte>): (r: seq<byte>)
    requires index <= |mem| && |data| <= |mem|
    ensures |r| == |mem|
  {
    var top := |mem| - index;
    if |data| <= top then Splice(mem, index, data)
    else Splice(Splice(mem, index, data[..top]), 0, data[top..])
  }

  lemma WriteJoins(mem: seq<byte>, readIndex: nat, writeIndex: nat, data: seq<byte>)
    requires readIndex <= |mem| && writeIndex <= |mem|
    requires data == [] || |Between(mem, readIndex, writeIndex)| + |data| < |mem|
    ensures |data| <= |mem| && Advance(|mem|, writeIndex, |data|) <= |mem|
    ensures Between(WrappedInto(mem, writeIndex, data), readIndex, Advance(|mem|, writeIndex, |data|))
         == Between(mem, readIndex, writeIndex) + data
  {
    if writeIndex < readIndex {
      SpliceBelow(mem, readIndex, writeIndex, data);
    } else if |data| <= |mem| - writeIndex {
      SpliceAbove(mem, readIndex, writeIndex, data);
    } else {
      SpliceRound(mem, readIndex, writeIndex, data);
    }
  }

  lemma SpliceBelow(mem: seq<byte>, readIndex: nat, writeIndex: nat, data: seq<byte>)
    requires writeIndex + |data| < readIndex <= |mem| || (data == [] && writeIndex < readIndex <= |mem|)
    ensures var t := Splice(mem, writeIndex, data);
            t[readIndex..] + t[..writeIndex + |data|] == mem[readIndex..] + mem[..writeIndex] + data
  {
    SpliceJoins(mem, writeIndex, data, 0);
    var t := Splice(mem, writeIndex, data);
    assert t[..writeIndex + |data|] == t[0..writeIndex + |data|];
    assert t[readIndex..] == mem[readIndex..];
    assert mem[0..writeIndex] == mem[..writeIndex];
  }

  lemma SpliceAbove(mem: seq<byte>, readIndex: nat, writeIndex: nat, data: seq<byte>)
    requires readIndex <= writeIndex && writeIndex + |data| <= |mem|
    ensures Splice(mem, writeIndex, data)[readIndex..writeIndex + |data|] == mem[readIndex..writeIndex] + data
  {
    SpliceJoins(mem, writeIndex, data, readIndex);
  }

  lemma SpliceRound(mem: seq<byte>, readIndex: nat, writeIndex: nat, data: seq<byte>)
    requires readIndex <= writeIndex <= |mem| && |mem| - writeIndex < |data| < |mem| - (writeIndex - readIndex)
    ensures var top := |mem| - writeIndex;
            var t := Splice(Splice(mem, writeIndex, data[..top]), 0, data[top..]);
            |data| - top < readIndex && t[readIndex..] + t[..|data| - top] == mem[readIndex..writeIndex] + data
  {
    var top := |mem| - writeIndex;
    var low, high := data[top..], data[..top];
    var once := Splice(mem, writeIndex, high);
    SpliceJoins(mem, writeIndex, high, readIndex);
    assert once[readIndex..writeIndex + top] == once[readIndex..];
    SpliceHead(once, low, readIndex);
    assert data == high + low;
    Associative(mem[readIndex..writeIndex], high, low);
  }

  lemma SpliceHead(s: seq<byte>, low: seq<byte>, n: nat)
    requires |low| <= n <= |s|
    ensures Splice(s, 0, low)[..|low|] == low && Splice(s, 0, low)[n..] == s[n..]
  {
  }

  class SPSC {
    var mHeader: SharedMemory?
    var mCapacity: nat
    var mIsWriter: bool

    constructor ()
      ensures mHeader == null && mIsWriter
    {
      mHeader, mCapacity, mIsWriter := null, 0, true;
    }

    // The mapped block is at least as long as maxLen says; here it is exactly that long.
    method Init(sharedMemory: SharedMemory, maxLen: nat, isWriter: bool, isServer: bool) returns (ret: bool)
      requires maxLen < U32 && (HEADER_SIZE < maxLen ==> sharedMemory.mBase.Length == maxLen - HEADER_SIZE)
      modifies this, sharedMemory`mVersionNumber, sharedMemory`mBufferSize, sharedMemory`mReadIndex, sharedMemory`mWriteIndex, sharedMemory`mSequenceNumber
      ensures mIsWriter == isWriter
      ensures ret == (HEADER_SIZE < maxLen &&
                      (isServer || (old(sharedMemory.mVersionNumber) == VERSION && old(sharedMemory.mBufferSize) == maxLen)))
      ensures HEADER_SIZE < maxLen ==> mHeader == if ret then sharedMemory else null
      ensures ret ==> mHeader == sharedMemory && mCapacity == maxLen - HEADER_SIZE == sharedMemory.mBase.Length
      ensures ret && isServer ==> sharedMemory.Valid() && sharedMemory.Contents() == [] && sharedMemory.mSequenceNumber == 0
      ensures ret && isServer ==> sharedMemory.mVersionNumber == VERSION && sharedMemory.mBufferSize == maxLen
      ensures !isServer ==> unchanged(sharedMemory)
    {
      ret := true;
      mIsWriter := isWriter;
      if maxLen > HEADER_SIZE {
        mHeader := sharedMemory;
        mCapacity := maxLen - HEADER_SIZE;
        if isServer {
          mHeader.mVersionNumber := VERSION;
          mHeader.mBufferSize := maxLen;
          mHeader.mWriteIndex := 0;
          mHeader.mReadIndex := 0;
          mHeader.mSequenceNumber := 0;
        } else {
          if mHeader.mVersionNumber != VERSION || mHeader.mBufferSize != maxLen {
            mHeader := null;
            ret := false;
          }
        }
      } else {
        ret := false;
      }
    }

    ghost predicate Valid()
      reads this, mHeader, if mHeader == null then {} else {mHeader.mBase}
    {
      mHeader != null && mHeader.Valid() && mCapacity == mHeader.mBase.Length
    }

    ghost function Contents(): seq<byte>
      requires Valid()
      reads this, mHeader, if mHeader == null then {} else {mHeader.mBase}
    {
      mHeader.Contents()
    }

    // The number as it was before.
    method IncrementSequenceNumber() returns (ret: nat)
      modifies if mHeader == null then {} else {mHeader}
      ensures ret == if mHeader == null then 0 else old(mHeader.mSequenceNumber)
      ensures mHeader != null ==>
        && mHeader.mSequenceNumber == (old(mHeader.mSequenceNumber) + 1) % U32
        && mHeader.mReadIndex == old(mHeader.mReadIndex) && mHeader.mWriteIndex == old(mHeader.mWriteIndex)
        && mHeader.mVersionNumber == old(mHeader.mVersionNumber) && mHeader.mBufferSize == old(mHeader.mBufferSize)
    {
      ret := 0;
      if mHeader != null {
        ret := mHeader.mSequenceNumber;
        mHeader.mSequenceNumber := (mHeader.mSequenceNumber + 1) % U32;
      }
    }

    function GetSequenceNumber(): nat
      reads this, mHeader
    {
      if mHeader == null then 0 else mHeader.mSequenceNumber
    }

    method Size() returns (n: nat)
      requires Valid()
      ensures n == |Contents()|
    {
      BetweenSize(mHeader.mBase[..], mHeader.mReadIndex, mHeader.mWriteIndex);
      n := CalcSize(mCapacity, mHeader.mReadIndex, mHeader.mWriteIndex);
    }

    method GetCapacity() returns (n: nat)
      requires Valid()
      ensures n == Capacity(mCapacity, |Contents()|)
      ensures n == if mCapacity - |Contents()| <= 1 then 0 else mCapacity - |Contents()| - 1
    {
      var size := Size();
      n := Capacity(mCapacity, size);
    }

    // Copies len bytes out from an index on; returns the index after them.
    method CopyOut(dest: array<byte>, at: nat, readIndex: nat, len: nat) returns (next: nat)
      requires mHeader != null && mCapacity == mHeader.mBase.Length && dest != mHeader.mBase
      requires at + len <= dest.Length && readIndex <= mCapacity && len <= mCapacity
      modifies dest
      ensures dest[..] == Splice(old(dest[..]), at, Wrapped(mHeader.mBase[..], readIndex, len))
      ensures next == Advance(mCapacity, readIndex, len)
    {
      var availTop := mCapacity - readIndex;
      if availTop >= len {
        CopyInto(dest, at, mHeader.mBase[readIndex..readIndex + len]);
        next := readIndex + len;
      } else {
        var remainder := len - availTop;
        var top, bottom := mHeader.mBase[readIndex..], mHeader.mBase[..remainder];
        assert top + bottom == Wrapped(mHeader.mBase[..], readIndex, len);
        SpliceTwice(dest[..], at, top, bottom);
        CopyInto(dest, at, top);
        CopyInto(dest, at + availTop, bottom);
        next := remainder;
      }
    }

    // Takes bytes off the ring into dest.
    method Read(dest: array<byte>, at: nat, maxLen: nat) returns (len: nat)
      requires Valid() && at + maxLen <= dest.Length && dest != mHeader.mBase
      modifies mHeader`mReadIndex, dest
      ensures Valid()
      ensures len == if mIsWriter then 0 else Min(|old(Contents())|, maxLen)
      ensures Contents() == old(Contents())[len..]
      ensures dest[..] == Splice(old(dest[..]), at, old(Contents())[..len])
    {
      len := 0;
      if !mIsWriter {
        var size := Size();
        len := Min(size, maxLen);
        if len != 0 {
          var readIndex := mHeader.mReadIndex;
          ReadSplits(mHeader.mBase[..], readIndex, mHeader.mWriteIndex, len);
          var next := CopyOut(dest, at, readIndex, len);
          mHeader.mReadIndex := next;
        }
      }
    }

    // Copies data in from an index on; returns the index after it.
    method CopyIn(writeIndex: nat, data: seq<byte>) returns (next: nat)
      requires mHeader != null && mCapacity == mHeader.mBase.Length
      requires writeIndex <= mCapacity && |data| <= mCapacity
      modifies mHeader.mBase
      ensures mHeader.mBase[..] == WrappedInto(old(mHeader.mBase[..]), writeIndex, data)
      ensures next == Advance(mCapacity, writeIndex, |data|)
    {
      var availTop := mCapacity - writeIndex;
      if |data| <= availTop {
        CopyInto(mHeader.mBase, writeIndex, data);
        next := writeIndex + |data|;
      } else {
        CopyInto(mHeader.mBase, writeIndex, data[..availTop]);
        CopyInto(mHeader.mBase, 0, data[availTop..]);
        next := |data| - availTop;
      }
    }

    // Puts as many of the bytes on the ring as there is room for.
    method Write(data: seq<byte>) returns (dataLen: nat)
      requires Valid() && |data| < U32
      modifies mHeader`mWriteIndex, mHeader.mBase
      ensures Valid()
      ensures dataLen == if mIsWriter then Accepted(mCapacity, |old(Contents())|, |data|) else 0
      ensures Contents() == old(Contents()) + data[..dataLen]
    {
      dataLen := 0;
      if mIsWriter {
        var avail := GetCapacity();
        if avail != 0 {
          avail := avail - 1;
          dataLen := Min(avail, |data|);
          var writeIndex := mHeader.mWriteIndex;
          WriteJoins(mHeader.mBase[..], mHeader.mReadIndex, writeIndex, data[..dataLen]);
          var next := CopyIn(writeIndex, data[..dataLen]);
          mHeader.mWriteIndex := next;
        }
      }
    }
  }
}
