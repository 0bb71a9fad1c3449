// In-place masking: ext/easywsclient/FastXOR.cpp.
module FastXor {
  import opened Bytes

  function Xor(a: byte, b: byte): byte {
    a ^ b
  }

  // The specification: the octets take the four octets of the key in turn.
  function Mask(s: seq<byte>, key: Key): (r: seq<byte>)
    ensures |r| == |s|
  {
    if s == [] then [] else [Xor(s[0], key[0])] + Mask(s[1..], RotateOne(key))
  }

  function RotateOne(key: Key): Key {
    [key[1], key[2], key[3], key[0]]
  }

  // The key as it stands after n octets.
  function Rotate(key: Key, n: nat): Key
    decreases n
  {
    if n == 0 then key else Rotate(RotateOne(key), n - 1)
  }

  lemma {:induction false} RotateAt(key: Key, n: nat, i: nat)
    requires i < 4
    ensures Rotate(key, n)[i] == key[(n + i) % 4]
    decreases n
  {
    if n != 0 {
      RotateAt(RotateOne(key), n - 1, i);
      RotateOneAt(key, n - 1 + i);
    }
  }

  lemma RotateOneAt(key: Key, m: nat)
    ensures RotateOne(key)[m % 4] == key[(m + 1) % 4]
  {
    assert m % 4 == 0 || m % 4 == 1 || m % 4 == 2 || m % 4 == 3;
  }

  // Octet i of masked data is octet i of the data combined with octet i mod 4 of the key.
  lemma {:induction false} MaskAt(s: seq<byte>, key: Key, i: nat)
    requires i < |s|
    ensures Mask(s, key)[i] == Xor(s[i], key[i % 4])
  {
    if i != 0 {
      MaskAt(s[1..], RotateOne(key), i - 1);
      RotateOneAt(key, i - 1);
    }
  }

  lemma {:induction false} RotateWhole(key: Key, n: nat)
    ensures Rotate(key, n) == Rotate(key, n % 4)
  {
    if 4 <= n {
      RotateFour(key, n);
      RotateWhole(key, n - 4);
    }
  }

  lemma RotateFour(key: Key, n: nat)
    requires 4 <= n
    ensures Rotate(key, n) == Rotate(key, n - 4)
  {
    var k1 := RotateOne(key);
    var k2 := RotateOne(k1);
    var k3 := RotateOne(k2);
    assert RotateOne(k3) == key;
    assert Rotate(key, n) == Rotate(k1, n - 1) == Rotate(k2, n - 2) == Rotate(k3, n - 3) == Rotate(key, n - 4);
  }

  // Masking a concatenation is masking the parts, the second with the key rotated.
  lemma {:induction false} MaskConcat(a: seq<byte>, b: seq<byte>, key: Key)
    ensures Mask(a + b, key) == Mask(a, key) + Mask(b, Rotate(key, |a|))
  {
    if a == [] {
      assert a + b == b;
    } else {
      var k := RotateOne(key);
      assert (a + b)[1..] == a[1..] + b;
      MaskConcat(a[1..], b, k);
      assert Rotate(key, |a|) == Rotate(k, |a| - 1);
      assert Mask(a + b, key) == [Xor(a[0], key[0])] + (Mask(a[1..], k) + Mask(b, Rotate(key, |a|)));
    }
  }

  lemma {:induction false} MaskInvolution(s: seq<byte>, key: Key)
    ensures Mask(Mask(s, key), key) == s
  {
    if s != [] {
      XorTwice(s[0], key[0]);
      MaskInvolution(s[1..], RotateOne(key));
      assert Mask(s, key)[1..] == Mask(s[1..], RotateOne(key));
    }
  }

  lemma XorTwice(a: byte, k: byte)
    ensures (a ^ k) ^ k == a
  {
  }

  // Memory with the octets from off to off + len masked, one after another, and the rest untouched.
  function MaskRange(s: seq<byte>, off: nat, len: nat, key: Key): (r: seq<byte>)
    requires off + len <= |s|
    ensures |r| == |s|
    decreases len
  {
    if len == 0 then s else
      MaskRange(s, off, len - 1, key)[off + len - 1 := Xor(s[off + len - 1], key[(len - 1) % 4])]
  }

  // That is the range replaced by its masked form.
  lemma {:induction false} MaskRangeSplice(s: seq<byte>, off: nat, len: nat, key: Key)
    requires off + len <= |s|
    ensures MaskRange(s, off, len, key) == Splice(s, off, Mask(s[off..off + len], key))
    decreases len
  {
    if len != 0 {
      var n := len - 1;
      var y := Xor(s[off + n], key[n % 4]);
      MaskRangeSplice(s, off, n, key);
      MaskLonger(s, off, n, key);
      SpliceSnoc(s, off, Mask(s[off..off + n], key), y);
    }
  }

  lemma {:induction false} MaskLonger(s: seq<byte>, off: nat, n: nat, key: Key)
    requires off + n < |s|
    ensures Mask(s[off..off + (n + 1)], key) == Mask(s[off..off + n], key) + [Xor(s[off + n], key[n % 4])]
  {
    assert s[off..off + (n + 1)] == s[off..off + n] + [s[off + n]];
    MaskSnoc(s[off..off + n], s[off + n], key);
  }

  lemma {:induction false} MaskSnoc(s: seq<byte>, x: byte, key: Key)
    ensures Mask(s + [x], key) == Mask(s, key) + [Xor(x, key[|s| % 4])]
  {
    MaskConcat(s, [x], key);
    RotateAt(key, |s|, 0);
    MaskOne(x, Rotate(key, |s|));
  }

  lemma SpliceSnoc(s: seq<byte>, off: nat, a: seq<byte>, x: byte)
    requires off + |a| < |s|
    ensures Splice(s, off, a)[off + |a| := x] == Splice(s, off, a + [x])
  {
  }

  // A range masked in two parts, the second with the key rotated.
  lemma {:induction false} MaskRangeSplit(s: seq<byte>, off: nat, n: nat, len: nat, key: Key)
    requires n <= len && off + len <= |s|
    ensures MaskRange(MaskRange(s, off, n, key), off + n, len - n, Rotate(key, n)) == MaskRange(s, off, len, key)
    decreases len
  {
    if n < len {
      MaskRangeSplit(s, off, n, len - 1, key);
      MaskRangeBeyond(s, off, n, key, off + len - 1);
      RotateAt(key, n, (len - 1 - n) % 4);
      ModSum(n, len - 1 - n);
    }
  }

  lemma ModSum(n: nat, m: nat)
    ensures (n + m % 4) % 4 == (n + m) % 4
  {
  }

  lemma {:induction false} MaskRangeBeyond(s: seq<byte>, off: nat, len: nat, key: Key, at: nat)
    requires off + len <= at < |s|
    ensures MaskRange(s, off, len, key)[at] == s[at]
    decreases len
  {
    if len != 0 {
      MaskRangeBeyond(s, off, len - 1, key, at);
    }
  }

  lemma MaskOne(x: byte, key: Key)
    ensures Mask([x], key) == [Xor(x, key[0])]
  {
  }

  // xorBytes: returns the key position after the last octet.
  method XorBytes(mem: array<byte>, off: nat, len: nat, key: Key) returns (keyIndex: nat)
    requires off + len <= mem.Length
    modifies mem
    ensures mem[..] == MaskRange(old(mem[..]), off, len, key)
    ensures keyIndex == len % 4
  {
    var i := 0;
    while i < len
      invariant 0 <= i <= len
      invariant mem[..] == MaskRange(old(mem[..]), off, i, key)
    {
      MaskRangeBeyond(old(mem[..]), off, i, key, off + i);
      mem[off + i] := Xor(mem[off + i], key[i % 4]);
      i := i + 1;
    }
    keyIndex := i % 4;
  }

  // slowXOR.
  method SlowXor(mem: array<byte>, off: nat, len: nat, key: Key)
    requires off + len <= mem.Length
    modifies mem
    ensures mem[..] == MaskRange(old(mem[..]), off, len, key)
  {
    var _ := XorBytes(mem, off, len, key);
  }

  // A little-endian view of eight octets as one 64-bit word.
  function Word(s: seq<byte>): bv64
    requires |s| == 8
  {
    (s[0] as bv64) | ((s[1] as bv64) << 8) | ((s[2] as bv64) << 16) | ((s[3] as bv64) << 24) |
    ((s[4] as bv64) << 32) | ((s[5] as bv64) << 40) | ((s[6] as bv64) << 48) | ((s[7] as bv64) << 56)
  }

  function WordBytes(w: bv64): (s: seq<byte>)
    ensures |s| == 8
  {
    [(w & 0xff) as bv8, ((w >> 8) & 0xff) as bv8, ((w >> 16) & 0xff) as bv8, ((w >> 24) & 0xff) as bv8,
     ((w >> 32) & 0xff) as bv8, ((w >> 40) & 0xff) as bv8, ((w >> 48) & 0xff) as bv8, ((w >> 56) & 0xff) as bv8]
  }

  function XorEight(s: seq<byte>, m: seq<byte>): seq<byte>
    requires |s| == |m| == 8
  {
    [Xor(s[0], m[0]), Xor(s[1], m[1]), Xor(s[2], m[2]), Xor(s[3], m[3]),
     Xor(s[4], m[4]), Xor(s[5], m[5]), Xor(s[6], m[6]), Xor(s[7], m[7])]
  }

  // Combining two words combines their octets one by one.
  lemma WordXor(s: seq<byte>, m: seq<byte>)
    requires |s| == |m| == 8
    ensures WordBytes(Word(s) ^ Word(m)) == XorEight(s, m)
  {
  }

  lemma WordMask(s: seq<byte>, key: Key)
    requires |s| == 8
    ensures WordBytes(Word(s) ^ Word(key + key)) == Mask(s, key)
  {
    WordXor(s, key + key);
    EightMask(s, key);
  }

  lemma EightMask(s: seq<byte>, key: Key)
    requires |s| == 8
    ensures XorEight(s, key + key) == Mask(s, key)
  {
    var r := Mask(s, key);
    forall j: nat | j < 8
      ensures r[j] == Xor(s[j], key[j % 4])
    {
      MaskAt(s, key, j);
    }
    EightOctets(r, s, key);
  }

  lemma EightOctets(r: seq<byte>, s: seq<byte>, key: Key)
    requires |r| == |s| == 8
    requires forall j: nat :: j < 8 ==> r[j] == Xor(s[j], key[j % 4])
    ensures XorEight(s, key + key) == r
  {
    var m := key + key;
    assert m[0] == m[4] == key[0] && m[1] == m[5] == key[1] && m[2] == m[6] == key[2] && m[3] == m[7] == key[3];
    assert r[4] == Xor(s[4], key[4 % 4]) && r[5] == Xor(s[5], key[5 % 4]);
    assert r[6] == Xor(s[6], key[6 % 4]) && r[7] == Xor(s[7], key[7 % 4]);
  }

  // scan64[i] ^= mask, at an address that has to be a multiple of eight.
  method XorWord(mem: array<byte>, address: nat, off: nat, mask: bv64, ghost key: Key)
    requires off + 8 <= mem.Length
    requires (address + off) % 8 == 0
    requires mask == Word(key + key)
    modifies mem
    ensures mem[..] == MaskRange(old(mem[..]), off, 8, key)
  {
    var bytes := WordBytes(Word(mem[off..off + 8]) ^ mask);
    WordMask(mem[off..off + 8], key);
    MaskRangeSplice(mem[..], off, 8, key);
    assert mem[..][off..off + 8] == mem[off..off + 8];
    CopyInto(mem, off, bytes);
  }

  lemma {:induction false} BlockStep(s: seq<byte>, scan: nat, i: nat, key: Key)
    requires scan + 8 * i + 8 <= |s|
    ensures MaskRange(MaskRange(s, scan, 8 * i, key), scan + 8 * i, 8, key) == MaskRange(s, scan, 8 * (i + 1), key)
  {
    var done := 8 * i;
    assert 8 * (i + 1) == done + 8;
    TailCompletes(s, scan, done, done + 8, key);
  }

  // Eight octets at a time from an aligned place.
  method XorBlocks(mem: array<byte>, address: nat, scan: nat, blockCount: nat, key: Key)
    requires scan + 8 * blockCount <= mem.Length
    requires blockCount != 0 ==> (address + scan) % 8 == 0
    modifies mem
    ensures mem[..] == MaskRange(old(mem[..]), scan, 8 * blockCount, key)
  {
    ghost var start := mem[..];
    var mask := Word(key + key);
    var i := 0;
    while i < blockCount
      invariant 0 <= i <= blockCount
      invariant mem[..] == MaskRange(start, scan, 8 * i, key)
    {
      BlockStep(start, scan, i, key);
      var at := scan + 8 * i;
      StillAligned(address + scan, i);
      XorWord(mem, address, at, mask, key);
      i := i + 1;
    }
  }

  lemma StillAligned(a: nat, i: nat)
    requires a % 8 == 0
    ensures (a + 8 * i) % 8 == 0
  {
  }

  // The key from this position on is the key rotated.
  lemma RotatedKey(key: Key, n: nat)
    ensures Rotate(key, n) == [key[n % 4], key[(n + 1) % 4], key[(n + 2) % 4], key[(n + 3) % 4]]
  {
    RotateAt(key, n, 0);
    RotateAt(key, n, 1);
    RotateAt(key, n, 2);
    RotateAt(key, n, 3);
  }

  lemma Aligned(a: nat, skip: nat, len: nat)
    requires skip == if a % 8 == 0 then 0 else Min(8 - a % 8, len)
    ensures 8 <= len - skip ==> (a + skip) % 8 == 0
  {
  }

  // The bytes before the first aligned address, and the key as it stands after them.
  method Prologue(mem: array<byte>, address: nat, off: nat, len: nat, key: Key) returns (skipBytes: nat, alignKey: Key)
    requires off + len <= mem.Length
    modifies mem
    ensures skipBytes <= len && (8 <= len - skipBytes ==> (address + (off + skipBytes)) % 8 == 0)
    ensures alignKey == Rotate(key, skipBytes % 4)
    ensures mem[..] == MaskRange(old(mem[..]), off, skipBytes, key)
  {
    alignKey := key;
    skipBytes := (address + off) % 8;
    if skipBytes != 0 {
      skipBytes := Min(8 - skipBytes, len);
      var keyIndex := XorBytes(mem, off, skipBytes, key);
      alignKey := [key[keyIndex % 4], key[(keyIndex + 1) % 4], key[(keyIndex + 2) % 4], key[(keyIndex + 3) % 4]];
      RotatedKey(key, keyIndex);
    }
    Aligned(address + off, skipBytes, len);
  }

  // if (blockCount) ...
  method SomeBlocks(mem: array<byte>, address: nat, scan: nat, blockCount: nat, key: Key)
    requires scan + 8 * blockCount <= mem.Length
    requires blockCount != 0 ==> (address + scan) % 8 == 0
    modifies mem
    ensures mem[..] == MaskRange(old(mem[..]), scan, 8 * blockCount, key)
  {
    if blockCount != 0 {
      XorBlocks(mem, address, scan, blockCount, key);
    }
  }

  // if (dataLen) ...
  method SomeBytes(mem: array<byte>, off: nat, len: nat, key: Key)
    requires off + len <= mem.Length
    modifies mem
    ensures mem[..] == MaskRange(old(mem[..]), off, len, key)
  {
    if len != 0 {
      var _ := XorBytes(mem, off, len, key);
    }
  }

  // The blocks from an aligned address on, then the bytes left over.
  method BlocksAndTail(mem: array<byte>, address: nat, scan: nat, dataLen: nat, key: Key)
    requires scan + dataLen <= mem.Length
    requires 8 <= dataLen ==> (address + scan) % 8 == 0
    modifies mem
    ensures mem[..] == MaskRange(old(mem[..]), scan, dataLen, key)
  {
    var blockCount := dataLen / 8;
    var done := 8 * blockCount;
    TailCompletes(mem[..], scan, done, dataLen, key);
    SomeBlocks(mem, address, scan, blockCount, key);
    SomeBytes(mem, scan + done, dataLen - done, key);
  }

  lemma {:induction false} TailCompletes(s: seq<byte>, scan: nat, done: nat, len: nat, key: Key)
    requires done % 4 == 0 && done <= len && scan + len <= |s|
    ensures MaskRange(MaskRange(s, scan, done, key), scan + done, len - done, key) == MaskRange(s, scan, len, key)
  {
    RotateWhole(key, done);
    MaskRangeSplit(s, scan, done, len, key);
  }

  lemma {:induction false} RestCompletes(s: seq<byte>, off: nat, skip: nat, len: nat, key: Key)
    requires skip <= len && off + len <= |s|
    ensures MaskRange(MaskRange(s, off, skip, key), off + skip, len - skip, Rotate(key, skip % 4)) == MaskRange(s, off, len, key)
  {
    RotateWhole(key, skip);
    MaskRangeSplit(s, off, skip, len, key);
  }

  // fastXOR on a little-endian machine; address is where mem[0] lies.
  method FastXor(mem: array<byte>, address: nat, off: nat, len: nat, key: Key)
    requires off + len <= mem.Length && len < U32
    modifies mem
    ensures mem[..] == MaskRange(old(mem[..]), off, len, key)
  {
    var skipBytes, alignKey := Prologue(mem, address, off, len, key);
    RestCompletes(old(mem[..]), off, skipBytes, len, key);
    BlocksAndTail(mem, address, off + skipBytes, len - skipBytes, alignKey);
  }

  // Masking and then unmasking a copy restores the data, whatever the alignment of either place.
  method RoundTrip(src: array<byte>, srcAddress: nat, dst: array<byte>, dstAddress: nat, at: nat, key: Key)
    requires src != dst && at + src.Length <= dst.Length && src.Length < U32
    modifies src, dst
    ensures dst[..] == Splice(old(dst[..]), at, old(src[..]))
  {
    ghost var plain, dst0 := src[..], dst[..];
    FastXor(src, srcAddress, 0, src.Length, key);
    MaskRangeAll(plain, key);
    CopyInto(dst, at, src[..]);
    FastXor(dst, dstAddress, at, src.Length, key);
    UnmaskSplice(dst0, at, plain, key);
  }

  lemma {:induction false} MaskRangeAll(s: seq<byte>, key: Key)
    ensures MaskRange(s, 0, |s|, key) == Mask(s, key)
  {
    MaskRangeSplice(s, 0, |s|, key);
    assert s[0..|s|] == s;
  }

  lemma {:induction false} UnmaskSplice(s: seq<byte>, at: nat, plain: seq<byte>, key: Key)
    requires at + |plain| <= |s|
    ensures MaskRange(Splice(s, at, Mask(plain, key)), at, |plain|, key) == Splice(s, at, plain)
  {
    var hidden := Mask(plain, key);
    var once := Splice(s, at, hidden);
    MaskInvolution(plain, key);
    MaskRangeSplice(once, at, |plain|, key);
    SpliceRead(s, at, hidden);
    SpliceAgain(s, at, hidden, plain);
  }
}
