// The growable sliding byte window: ext/easywsclient/SimpleBuffer.cpp.
module SimpleBuffer {
  import opened Bytes

  datatype Option<T> = None | Some(value: T)

  // Whether a request for n bytes is met, and how: the geometry alone decides.
  predicate Fits(endLoc: nat, maxLen: nat, n: nat) {
    endLoc + n <= maxLen
  }

  function GrownLen(endLoc: nat, maxLen: nat, n: nat): nat {
    if 2 * maxLen - endLoc < n then 2 * maxLen + n else 2 * maxLen
  }

  predicate Accepts(startLoc: nat, endLoc: nat, maxLen: nat, maxGrowSize: nat, n: nat) {
    Fits(endLoc, maxLen, n) || n < startLoc || GrownLen(endLoc, maxLen, n) <= maxGrowSize
  }

  // Where the window lies in its buffer.
  datatype Extent = Extent(startLoc: nat, endLoc: nat, maxLen: nat)

  // Where it lies once there is room for n more bytes, and once they are there.
  function Roomy(g: Extent, n: nat): Extent
    requires g.startLoc <= g.endLoc
  {
    if Fits(g.endLoc, g.maxLen, n) then g
    else Extent(0, g.endLoc - g.startLoc, if n < g.startLoc then g.maxLen else GrownLen(g.endLoc, g.maxLen, n))
  }

  function Grown(g: Extent, n: nat): Extent
    requires g.startLoc <= g.endLoc
  {
    var h := Roomy(g, n);
    h.(endLoc := h.endLoc + n)
  }

  predicate Takes(g: Extent, maxGrowSize: nat, n: nat) {
    Accepts(g.startLoc, g.endLoc, g.maxLen, maxGrowSize, n)
  }

  // In plain arithmetic: a request is met when it fits behind the window, or is smaller than the
  // room before it, or the buffer may be doubled, and by that much more if need be.
  lemma AcceptsPlainly(startLoc: nat, endLoc: nat, maxLen: nat, maxGrowSize: nat, n: nat)
    requires startLoc <= endLoc <= maxLen
    ensures Accepts(startLoc, endLoc, maxLen, maxGrowSize, n) <==>
      || endLoc + n <= maxLen
      || n < startLoc
      || 2 * maxLen + (if endLoc + n <= 2 * maxLen then 0 else n) <= maxGrowSize
  {
  }

  // The room made is enough; a slide keeps the buffer, and a reallocation at least doubles it.
  lemma RoomyEnough(g: Extent, maxGrowSize: nat, n: nat)
    requires g.startLoc <= g.endLoc <= g.maxLen && Takes(g, maxGrowSize, n)
    ensures var h := Roomy(g, n);
            && h.endLoc - h.startLoc == g.endLoc - g.startLoc && h.startLoc <= g.startLoc && h.endLoc + n <= h.maxLen
            && (if g.endLoc + n <= g.maxLen then h == g
                else h.startLoc == 0 && if n < g.startLoc then h.maxLen == g.maxLen else 2 * g.maxLen <= h.maxLen <= maxGrowSize)
  {
  }

  lemma WindowGrows(s: seq<byte>, lo: nat, hi: nat, n: nat)
    requires lo <= hi && hi + n <= |s|
    ensures s[lo..hi + n] == s[lo..hi] + s[hi..hi + n]
  {
  }

  class Buffer {
    var mBuffer: array<byte>
    var mAddress: nat       // where malloc placed the buffer
    var mStartLoc: nat
    var mEndLoc: nat
    var mMaxLen: nat
    var mMaxGrowSize: nat
    var mDefaultSize: nat

    ghost predicate Valid()
      reads this
    {
      && mStartLoc <= mEndLoc <= mMaxLen <= mMaxGrowSize
      && mBuffer.Length == mMaxLen
      && 2 * mMaxGrowSize < U32
      && (mStartLoc == mEndLoc ==> mStartLoc == 0)
    }

    ghost function Place(): Extent
      reads this
    {
      Extent(mStartLoc, mEndLoc, mMaxLen)
    }

    ghost function Contents(): seq<byte>
      requires Valid()
      reads this, mBuffer
    {
      mBuffer[mStartLoc..mEndLoc]
    }

    constructor (defaultLen: nat, maxGrowSize: nat)
      requires 2 * defaultLen < U32 && 2 * maxGrowSize < U32
      ensures Valid() && fresh(mBuffer) && Contents() == []
      ensures mMaxLen == defaultLen && mMaxGrowSize == if defaultLen > maxGrowSize then defaultLen else maxGrowSize
    {
      mMaxGrowSize := if defaultLen > maxGrowSize then defaultLen else maxGrowSize;
      mBuffer := new byte[defaultLen];
      mAddress := *;
      mStartLoc, mEndLoc, mMaxLen, mDefaultSize := 0, 0, defaultLen, defaultLen;
    }

    // The size of the window; the bytes start at mBuffer[mStartLoc].
    function GetSize(): (n: nat)
      requires Valid()
      reads this, mBuffer
      ensures n == |Contents()|
    {
      mEndLoc - mStartLoc
    }

    method Clear()
      requires Valid()
      modifies this`mStartLoc, this`mEndLoc
      ensures Valid() && Contents() == []
    {
      mStartLoc, mEndLoc := 0, 0;
    }

    // A null data pointer is None: the bytes were written in place already.
    method AddBuffer(data: Option<seq<byte>>, dataLen: nat) returns (ret: bool)
      requires Valid()
      requires data.Some? ==> |data.value| == dataLen
      requires 2 * mMaxLen + dataLen < U32
      modifies this, mBuffer
      ensures Valid() && mMaxGrowSize == old(mMaxGrowSize)
      ensures mBuffer == old(mBuffer) || fresh(mBuffer)
      ensures old(Fits(mEndLoc, mMaxLen, dataLen)) ==> mBuffer == old(mBuffer)
      ensures ret == old(Accepts(mStartLoc, mEndLoc, mMaxLen, mMaxGrowSize, dataLen))
      ensures ret && data.Some? ==> Contents() == old(Contents()) + data.value
      ensures ret && data.None? && old(Fits(mEndLoc, mMaxLen, dataLen)) ==>
        Contents() == old(Contents()) + old(mBuffer[mEndLoc..mEndLoc + dataLen])
      ensures ret && data.None? ==> |Contents()| == |old(Contents())| + dataLen && Contents()[..|old(Contents())|] == old(Contents())
      ensures !ret ==> Contents() == old(Contents()) && mMaxLen == old(mMaxLen)
      ensures ret ==> Place() == Grown(old(Place()), dataLen)
    {
      ret := false;
      var available := mMaxLen - mEndLoc;
      if dataLen > available {
        var _ := GrowBuffer(dataLen);
        available := mMaxLen - mEndLoc;
      }
      if dataLen <= available {
        if data.Some? {
          SpliceJoins(mBuffer[..], mEndLoc, data.value, mStartLoc);
          CopyInto(mBuffer, mEndLoc, data.value);
        } else {
          WindowGrows(mBuffer[..], mStartLoc, mEndLoc, dataLen);
        }
        mEndLoc := mEndLoc + dataLen;
        ret := true;
      }
    }

    // Makes room for dataLen bytes by sliding the window down or by doubling the buffer.
    method GrowBuffer(dataLen: nat) returns (ret: bool)
      requires Valid() && mMaxLen < mEndLoc + dataLen
      requires 2 * mMaxLen + dataLen < U32
      modifies this, mBuffer
      ensures Valid() && Contents() == old(Contents()) && mMaxGrowSize == old(mMaxGrowSize)
      ensures mBuffer == old(mBuffer) || fresh(mBuffer)
      ensures ret == old(Accepts(mStartLoc, mEndLoc, mMaxLen, mMaxGrowSize, dataLen))
      ensures ret ==> mStartLoc == 0 && mEndLoc + dataLen <= mMaxLen
      ensures !ret ==> unchanged(this)
      ensures ret ==> Place() == Roomy(old(Place()), dataLen)
    {
      ret := false;
      var emptySize := mStartLoc;
      if dataLen < emptySize {
        var keepSize := mEndLoc - mStartLoc;
        SlideDown(mStartLoc, keepSize);
        mStartLoc := 0;
        mEndLoc := keepSize;
        ret := true;
      } else {
        var newMaxLen := mMaxLen * 2;
        var available := newMaxLen - mEndLoc;
        if available < dataLen {
          newMaxLen := newMaxLen + dataLen;
        }
        if newMaxLen > mMaxGrowSize {
        } else {
          ret := true;
          ghost var was := Contents();
          mMaxLen := newMaxLen;
          var newBuffer := new byte[mMaxLen];
          var bufferSize := mEndLoc - mStartLoc;
          if bufferSize != 0 {
            CopyInto(newBuffer, 0, mBuffer[mStartLoc..mEndLoc]);
          }
          mBuffer := newBuffer;
          mAddress := *;
          mStartLoc := 0;
          mEndLoc := bufferSize;
          assert mBuffer[0..bufferSize] == was;
        }
      }
    }

    // The slide's memcpy within one buffer, taken as a forward byte loop.
    method SlideDown(from: nat, keepSize: nat)
      requires from + keepSize <= mBuffer.Length
      modifies mBuffer
      ensures mBuffer[..keepSize] == old(mBuffer[from..from + keepSize])
    {
      var i := 0;
      while i < keepSize
        invariant 0 <= i <= keepSize
        invariant forall k :: 0 <= k < i ==> mBuffer[k] == old(mBuffer[from + k])
        invariant forall k :: i <= k < mBuffer.Length ==> mBuffer[k] == old(mBuffer[k])
      {
        mBuffer[i] := mBuffer[from + i];
        i := i + 1;
      }
    }

    // Asking for more than there is empties the window.
    method Consume(removeLen: nat)
      requires Valid()
      modifies this`mStartLoc, this`mEndLoc
      ensures Valid() && Contents() == old(Contents()[Min(removeLen, GetSize())..])
    {
      var activeBufferSize := mEndLoc - mStartLoc;
      mStartLoc := mStartLoc + if removeLen > activeBufferSize then activeBufferSize else removeLen;
      if mStartLoc == mEndLoc {
        mStartLoc := 0;
        mEndLoc := 0;
      }
    }

    // True when the source returns a write position, which is then mBuffer[mEndLoc].
    method ConfirmCapacity(capacity: nat) returns (ok: bool)
      requires Valid()
      requires 2 * mMaxLen + capacity < U32
      modifies this, mBuffer
      ensures Valid() && Contents() == old(Contents()) && mMaxGrowSize == old(mMaxGrowSize)
      ensures mBuffer == old(mBuffer) || fresh(mBuffer)
      ensures ok == old(Accepts(mStartLoc, mEndLoc, mMaxLen, mMaxGrowSize, capacity))
      ensures ok ==> Fits(mEndLoc, mMaxLen, capacity)
      ensures !ok ==> unchanged(this)
      ensures ok ==> Place() == Roomy(old(Place()), capacity)
    {
      var available := mMaxLen - mEndLoc;
      if capacity > available {
        var _ := GrowBuffer(capacity);
        available := mMaxLen - mEndLoc;
      }
      ok := capacity <= available;
    }
  }
}
