/** Bytes, the integers packed into them, and buffers of them. */
module Bytes {
  newtype Byte = x: int | 0 <= x < 256

  /** An IPv4 address as it goes over the wire. */
  type Ip = a: seq<Byte> | |a| == 4 witness [0, 0, 0, 0]

  /** Little-endian, as the packed structs lay integers out. */
  function Le16(n: int): seq<Byte>
    requires 0 <= n < 0x1_0000
  {
    [(n % 256) as Byte, (n / 256) as Byte]
  }

  function Le32(n: int): (r: seq<Byte>)
    requires 0 <= n < 0x1_0000_0000
    ensures |r| == 4
  {
    Le16(n % 0x1_0000) + Le16(n / 0x1_0000)
  }

  function FromLe16(s: seq<Byte>): (n: int)
    requires |s| == 2
    ensures 0 <= n < 0x1_0000
  {
    s[0] as int + 256 * (s[1] as int)
  }

  function FromLe32(s: seq<Byte>): (n: int)
    requires |s| == 4
    ensures 0 <= n < 0x1_0000_0000
  {
    FromLe16(s[..2]) + 0x1_0000 * FromLe16(s[2..])
  }

  lemma Le16RoundTrip(n: int)
    requires 0 <= n < 0x1_0000
    ensures FromLe16(Le16(n)) == n
  {
  }

  lemma Le32RoundTrip(n: int)
    requires 0 <= n < 0x1_0000_0000
    ensures FromLe32(Le32(n)) == n
  {
    var a, b := Le16(n % 0x1_0000), Le16(n / 0x1_0000);
    assert (a + b)[..2] == a && (a + b)[2..] == b;
    Le16RoundTrip(n % 0x1_0000);
    Le16RoundTrip(n / 0x1_0000);
  }

  /** Network byte order. */
  function Be32(n: int): (r: seq<Byte>)
    requires 0 <= n < 0x1_0000_0000
    ensures |r| == 4
  {
    [(n / 0x100_0000) as Byte, (n / 0x1_0000 % 256) as Byte, (n / 256 % 256) as Byte, (n % 256) as Byte]
  }

  function Zeros(n: nat): (r: seq<Byte>)
    ensures |r| == n && forall i :: 0 <= i < n ==> r[i] == 0
  {
    seq(n, _ => 0)
  }

  /** `s` with `v` written over it from `at` on. */
  function Splice(s: seq<Byte>, at: nat, v: seq<Byte>): (r: seq<Byte>)
    requires at + |v| <= |s|
    ensures |r| == |s| && r[at..at + |v|] == v
    ensures forall i :: 0 <= i < at || at + |v| <= i < |s| ==> r[i] == s[i]
  {
    s[..at] + v + s[at + |v|..]
  }

  lemma IsSplice(s: seq<Byte>, r: seq<Byte>, at: nat, v: seq<Byte>)
    requires |r| == |s| && at + |v| <= |s| && r[at..at + |v|] == v
    requires forall i :: 0 <= i < at || at + |v| <= i < |s| ==> r[i] == s[i]
    ensures r == Splice(s, at, v)
  {
    var w := Splice(s, at, v);
    forall i | 0 <= i < |r| ensures r[i] == w[i] {
      if at <= i < at + |v| { assert r[i] == v[i - at] == w[at..at + |v|][i - at]; }
    }
  }

  lemma SpliceKeeps(s: seq<Byte>, at: nat, v: seq<Byte>, i: nat, j: nat)
    requires at + |v| <= |s| && i <= j <= |s| && (j <= at || at + |v| <= i)
    ensures Splice(s, at, v)[i..j] == s[i..j]
  {
  }

  lemma SpliceTwice(s: seq<Byte>, at: nat, v: seq<Byte>, w: seq<Byte>)
    requires at + |v| + |w| <= |s|
    ensures Splice(Splice(s, at, v), at + |v|, w) == Splice(s, at, v + w)
  {
  }

  /** A buffer after a packet has been copied to its front; `stack` is what was there
      before. */
  function Received(p: seq<Byte>, stack: seq<Byte>): (b: seq<Byte>)
    ensures |b| == |stack|
    ensures forall i :: 0 <= i < |p| && i < |stack| ==> b[i] == p[i]
  {
    if |p| <= |stack| then p + stack[|p|..] else p[..|stack|]
  }

  /** memcpy */
  method Copy(dst: array<Byte>, at: nat, src: seq<Byte>)
    requires at + |src| <= dst.Length
    modifies dst
    ensures dst[..] == Splice(old(dst[..]), at, src)
  {
    forall i | 0 <= i < |src| { dst[at + i] := src[i]; }
  }

  /** Writes `v` right behind the bytes `before`, which were written from `at` on. */
  method Extend(dst: array<Byte>, ghost was: seq<Byte>, at: nat, n: nat, ghost before: seq<Byte>, v: seq<Byte>)
    requires n == |before| && at + n + |v| <= dst.Length == |was| && dst[..] == Splice(was, at, before)
    modifies dst
    ensures dst[..] == Splice(was, at, before + v)
  {
    SpliceTwice(was, at, before, v);
    Copy(dst, at + n, v);
  }
}
