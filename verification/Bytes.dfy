/** Octets, 32-bit words and big-endian integers, as they lie in packet buffers and files. */
module Bytes {
  import opened Division

  type byte = x: int | 0 <= x < 256

  const U32: nat := 0x1_0000_0000

  type uint32 = x: int | 0 <= x < U32

  /** Unsigned 32-bit addition: the sum modulo 2^32. */
  function Add32(a: uint32, b: uint32): uint32 {
    if a + b < U32 then a + b else a + b - U32
  }

  /** What fits the 16-bit data length of a PDU. */
  type field = s: seq<byte> | |s| < 0x1_0000

  function Min(a: int, b: int): int {
    if a <= b then a else b
  }

  function Pow256(k: nat): (p: nat)
    ensures p > 0
  {
    if k == 0 then 1 else 256 * Pow256(k - 1)
  }

  /** `x` in network byte order on `k` octets; the high part that does not fit is cut off. */
  function BigEndian(x: nat, k: nat): (s: seq<byte>)
    ensures |s| == k
  {
    if k == 0 then [] else BigEndian(x / 256, k - 1) + [x % 256]
  }

  function FromBigEndian(s: seq<byte>): nat
  {
    if s == [] then 0 else 256 * FromBigEndian(s[..|s| - 1]) + s[|s| - 1]
  }

  lemma {:induction false} BigEndianRoundTrip(x: nat, k: nat)
    requires x < Pow256(k)
    ensures FromBigEndian(BigEndian(x, k)) == x
  {
    if k != 0 {
      var s := BigEndian(x, k);
      assert s[..k - 1] == BigEndian(x / 256, k - 1);
      BigEndianRoundTrip(x / 256, k - 1);
    }
  }

  lemma Pow256Values()
    ensures Pow256(0) == 1 && Pow256(1) == 0x100 && Pow256(2) == 0x1_0000 && Pow256(4) == U32
    ensures Pow256(8) == U32 * U32
  {
    assert Pow256(2) == 256 * Pow256(1);
    assert Pow256(3) == 256 * Pow256(2);
    assert Pow256(4) == 256 * Pow256(3);
    assert Pow256(5) == 256 * Pow256(4);
    assert Pow256(6) == 256 * Pow256(5);
    assert Pow256(7) == 256 * Pow256(6);
    assert Pow256(8) == 256 * Pow256(7);
  }

  /** A slice of a slice. */
  lemma PartOf(s: seq<byte>, at: nat, n: nat, i: nat, j: nat)
    requires i <= j <= n && at + n <= |s|
    ensures s[at..at + n][i..j] == s[at + i..at + j]
  {
    var whole := s[at..at + n];
    forall k | 0 <= k < j - i ensures whole[i..j][k] == s[at + i..at + j][k] {
      assert whole[i + k] == s[at + i + k];
    }
  }

  /** Slices of two parts. */
  lemma SliceOfParts(a: seq<byte>, b: seq<byte>, i: nat, j: nat)
    requires i <= j <= |a|
    ensures (a + b)[i..j] == a[i..j] && (a + b)[|a|..|a| + |b|] == b
  {
  }

  /** The octet at position `i` is the one of that weight: the most significant first. */
  lemma {:induction false} BigEndianAt(x: nat, k: nat, i: nat)
    requires i < k
    ensures BigEndian(x, k)[i] == x / Pow256(k - 1 - i) % 256
    decreases k
  {
    if i < k - 1 {
      BigEndianAt(x / 256, k - 1, i);
      DivideTwice(x, Pow256(k - 2 - i));
    } else {
      assert Pow256(0) == 1;
    }
  }

  function Zeros(n: nat): (z: seq<byte>)
    ensures |z| == n && forall i :: 0 <= i < n ==> z[i] == 0
  {
    seq(n, _ => 0)
  }

  /** A POSIX write of `bytes` at `off`: a hole left before `off` reads as zeros. */
  function WriteAt(data: seq<byte>, off: nat, bytes: seq<byte>): (r: seq<byte>)
    ensures bytes == [] ==> r == data
    ensures bytes != [] ==> |r| == if off + |bytes| > |data| then off + |bytes| else |data|
    ensures bytes != [] ==> forall i :: 0 <= i < |r| ==>
      r[i] == if off <= i < off + |bytes| then bytes[i - off] else if i < |data| then data[i] else 0
  {
    if bytes == [] then data
    else
      var end := off + |bytes|;
      var wide := if end > |data| then data + Zeros(end - |data|) else data;
      wide[..off] + bytes + wide[end..]
  }

  /** `memcpy` into a packet buffer. */
  method PutBytes(packet: array<byte>, at: nat, bytes: seq<byte>)
    requires at + |bytes| <= packet.Length
    modifies packet
    ensures packet[..] == Overwritten(old(packet[..]), at, bytes)
  {
    forall i | 0 <= i < |bytes| {
      packet[at + i] := bytes[i];
    }
  }

  /** A buffer with `bytes` copied to `at`. */
  function Overwritten(s: seq<byte>, at: nat, bytes: seq<byte>): (r: seq<byte>)
    requires at + |bytes| <= |s|
    ensures |r| == |s|
  {
    s[..at] + bytes + s[at + |bytes|..]
  }

  /** Copies that lie side by side are one copy. */
  lemma OverwrittenTwice(s: seq<byte>, at: nat, a: seq<byte>, b: seq<byte>)
    requires at + |a| + |b| <= |s|
    ensures Overwritten(Overwritten(s, at, a), at + |a|, b) == Overwritten(s, at, a + b)
  {
  }
}
