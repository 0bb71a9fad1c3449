// Bytes, 32-bit bounds and the conversions the other modules share.
module Bytes {

  type byte = bv8

  // A masking key: four bytes (RFC 6455, section 5.3).
  type Key = k: seq<byte> | |k| == 4 witness [0, 0, 0, 0]

  const U32: nat := 0x1_0000_0000

  function ToByte(n: nat): byte
    requires n < 256
  {
    n as bv8
  }

  function Val(b: byte): (n: nat)
    ensures n < 256
  {
    b as int
  }

  lemma ToByteRoundTrip(n: nat)
    requires n < 256
    ensures Val(ToByte(n)) == n
  {
    CastRoundTrip(n);
  }

  lemma CastRoundTrip(n: nat)
    requires n < 256
    ensures (n as bv8) as int == n
  {
    assert n % 256 == n;
  }

  // The bytes of a string of single-byte characters.
  function Ascii(s: string): (r: seq<byte>)
    ensures |r| == |s|
    ensures forall i :: 0 <= i < |s| ==> r[i] == ToByte(s[i] as int % 256)
  {
    seq(|s|, i requires 0 <= i < |s| => ToByte(s[i] as int % 256))
  }

  function Join(pieces: seq<seq<byte>>): seq<byte> {
    if pieces == [] then [] else pieces[0] + Join(pieces[1..])
  }

  function Min(a: nat, b: nat): (m: nat)
    ensures m <= a && m <= b && (m == a || m == b)
  {
    if a <= b then a else b
  }

  // A sequence with the octets from off on replaced by those of part.
  function Splice(s: seq<byte>, off: nat, part: seq<byte>): (r: seq<byte>)
    requires off + |part| <= |s|
    ensures |r| == |s|
  {
    s[..off] + part + s[off + |part|..]
  }

  lemma SpliceTwice(s: seq<byte>, off: nat, a: seq<byte>, b: seq<byte>)
    requires off + |a| + |b| <= |s|
    ensures Splice(Splice(s, off, a), off + |a|, b) == Splice(s, off, a + b)
  {
    assert Splice(s, off, a)[..off + |a|] == s[..off] + a;
  }

  lemma SpliceRead(s: seq<byte>, at: nat, a: seq<byte>)
    requires at + |a| <= |s|
    ensures Splice(s, at, a)[at..at + |a|] == a
  {
  }

  lemma SpliceAgain(s: seq<byte>, at: nat, a: seq<byte>, b: seq<byte>)
    requires |a| == |b| && at + |a| <= |s|
    ensures Splice(Splice(s, at, a), at, b) == Splice(s, at, b)
  {
  }

  lemma SpliceStep(s: seq<byte>, at: nat, part: seq<byte>, i: nat)
    requires i < |part| && at + |part| <= |s|
    ensures Splice(s, at, part[..i + 1]) == Splice(s, at, part[..i])[at + i := part[i]]
  {
  }

  lemma SpliceJoins(s: seq<byte>, at: nat, part: seq<byte>, lo: nat)
    requires lo <= at && at + |part| <= |s|
    ensures Splice(s, at, part)[lo..at + |part|] == s[lo..at] + part
  {
  }

  lemma Associative<T>(a: seq<T>, b: seq<T>, c: seq<T>)
    ensures a + (b + c) == (a + b) + c
  {
  }

  // The C library's memcpy of a value into an array.
  method CopyInto(dst: array<byte>, at: nat, src: seq<byte>)
    requires at + |src| <= dst.Length
    modifies dst
    ensures dst[..] == Splice(old(dst[..]), at, src)
  {
    var i := 0;
    while i < |src|
      invariant 0 <= i <= |src|
      invariant dst[..] == Splice(old(dst[..]), at, src[..i])
    {
      SpliceStep(old(dst[..]), at, src, i);
      dst[at + i] := src[i];
      i := i + 1;
    }
    assert src[..|src|] == src;
  }
}
