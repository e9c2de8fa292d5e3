/** Scalar loads, stores and byte swaps of the WebUDP buffer helpers. A scalar
    of width 1, 2, 4 or 8 bytes is stored in host order, which the model takes
    to be little-endian; the "swapped" variants store it in network order. */
module WuBufferOp {
  import opened Bytes

  /** The widths the templates are instantiated at (uint8_t … uint64_t). */
  predicate ScalarWidth(w: nat) {
    w == 1 || w == 2 || w == 4 || w == 8
  }

  /** One more than the largest value of a scalar of width w. */
  function Limit(w: nat): nat
    requires ScalarWidth(w)
  {
    if w == 1 then 0x100 else if w == 2 then TWO16 else if w == 4 then TWO32 else TWO64
  }

  /** The bytes a scalar occupies in memory (host order). */
  function HostBytes(w: nat, v: nat): (r: seq<byte>)
    requires ScalarWidth(w) && v < Limit(w)
    ensures |r| == w
  {
    if w == 1 then [v] else if w == 2 then LE16(v) else if w == 4 then LE32(v) else LE64(v)
  }

  /** The bytes of a scalar in network order. */
  function NetBytes(w: nat, v: nat): (r: seq<byte>)
    requires ScalarWidth(w) && v < Limit(w)
    ensures |r| == w
  {
    if w == 1 then [v] else if w == 2 then BE16(v) else if w == 4 then BE32(v) else BE64(v)
  }

  /** The scalar whose host-order bytes are s. */
  function FromHost(s: seq<byte>): (v: nat)
    requires ScalarWidth(|s|)
    ensures v < Limit(|s|)
  {
    if |s| == 1 then s[0] else if |s| == 2 then GetLE16(s, 0)
    else if |s| == 4 then GetLE32(s, 0) else GetLE64(s, 0)
  }

  /** The scalar whose network-order bytes are s. */
  function FromNet(s: seq<byte>): (v: nat)
    requires ScalarWidth(|s|)
    ensures v < Limit(|s|)
  {
    if |s| == 1 then s[0] else if |s| == 2 then GetBE16(s, 0)
    else if |s| == 4 then GetBE32(s, 0) else GetBE64(s, 0)
  }

  lemma FromHostBytes(w: nat, v: nat)
    requires ScalarWidth(w) && v < Limit(w)
    ensures FromHost(HostBytes(w, v)) == v
  {
    var s := HostBytes(w, v);
    assert s[0..w] == s;
    if w == 2 { GetLE16At(s, 0, v); }
    else if w == 4 { GetLE32At(s, 0, v); }
    else if w == 8 { GetLE64At(s, 0, v); }
  }

  lemma HostBytesFrom(s: seq<byte>)
    requires ScalarWidth(|s|)
    ensures HostBytes(|s|, FromHost(s)) == s
  {
    assert s[0..|s|] == s;
    if |s| == 2 { LE16OfGet(s, 0); }
    else if |s| == 4 { LE32OfGet(s, 0); }
    else if |s| == 8 { LE64OfGet(s, 0); }
  }

  lemma FromNetBytes(w: nat, v: nat)
    requires ScalarWidth(w) && v < Limit(w)
    ensures FromNet(NetBytes(w, v)) == v
  {
    var s := NetBytes(w, v);
    assert s[0..w] == s;
    if w == 2 { GetBE16At(s, 0, v); }
    else if w == 4 { GetBE32At(s, 0, v); }
    else if w == 8 { GetBE64At(s, 0, v); }
  }

  function Reversed(s: seq<byte>): (r: seq<byte>)
    ensures |r| == |s|
    ensures forall i :: 0 <= i < |s| ==> r[i] == s[|s| - 1 - i]
  {
    if s == [] then [] else Reversed(s[1..]) + [s[0]]
  }

  /** Network order is host order reversed. */
  lemma NetIsReversedHost(w: nat, v: nat)
    requires ScalarWidth(w) && v < Limit(w)
    ensures NetBytes(w, v) == Reversed(HostBytes(w, v))
  {
  }

  /** ByteSwap: the value whose host-order bytes are the network-order bytes
      of v. It is the identity at width 1 and reverses the bytes otherwise. */
  function ByteSwap(w: nat, v: nat): (r: nat)
    requires ScalarWidth(w) && v < Limit(w)
    ensures r < Limit(w)
    ensures HostBytes(w, r) == NetBytes(w, v)
    ensures w == 1 ==> r == v
  {
    var s := NetBytes(w, v);
    HostBytesFrom(s);
    FromHost(s)
  }

  lemma ByteSwapReverses(w: nat, v: nat)
    requires ScalarWidth(w) && v < Limit(w)
    ensures HostBytes(w, ByteSwap(w, v)) == Reversed(HostBytes(w, v))
  {
    NetIsReversedHost(w, v);
  }

  lemma {:induction false} ReversedTwice(s: seq<byte>)
    ensures Reversed(Reversed(s)) == s
  {
  }

  /** Swapping twice gives back the value. */
  lemma ByteSwapInvolutive(w: nat, v: nat)
    requires ScalarWidth(w) && v < Limit(w)
    ensures ByteSwap(w, ByteSwap(w, v)) == v
  {
    var r := ByteSwap(w, v);
    var rr := ByteSwap(w, r);
    ByteSwapReverses(w, v);
    ByteSwapReverses(w, r);
    ReversedTwice(HostBytes(w, v));
    assert HostBytes(w, rr) == HostBytes(w, v);
    FromHostBytes(w, rr);
    FromHostBytes(w, v);
  }

  /** WriteScalar: stores v at dest[at..] in host order and returns its width. */
  method WriteScalar(dest: array<byte>, at: nat, w: nat, v: nat) returns (n: nat)
    requires ScalarWidth(w) && v < Limit(w) && at + w <= dest.Length
    modifies dest
    ensures n == w
    ensures dest[..] == old(dest[..at]) + HostBytes(w, v) + old(dest[at + w..])
  {
    var bytes := HostBytes(w, v);
    forall i | 0 <= i < w {
      dest[at + i] := bytes[i];
    }
    assert dest[..] == old(dest[..at]) + bytes + old(dest[at + w..]);
    n := w;
  }

  /** ReadScalar: loads the host-order scalar at src[at..] and returns its width. */
  method ReadScalar(src: array<byte>, at: nat, w: nat) returns (v: nat, n: nat)
    requires ScalarWidth(w) && at + w <= src.Length
    ensures n == w && v < Limit(w)
    ensures HostBytes(w, v) == src[at..at + w]
  {
    v := FromHost(src[at..at + w]);
    HostBytesFrom(src[at..at + w]);
    n := w;
  }

  /** WriteScalarSwapped: stores ByteSwap(v), i.e. v in network order. */
  method WriteScalarSwapped(dest: array<byte>, at: nat, w: nat, v: nat) returns (n: nat)
    requires ScalarWidth(w) && v < Limit(w) && at + w <= dest.Length
    modifies dest
    ensures n == w
    ensures dest[..] == old(dest[..at]) + NetBytes(w, v) + old(dest[at + w..])
  {
    n := WriteScalar(dest, at, w, ByteSwap(w, v));
  }

  /** ReadScalarSwapped: ByteSwap of the host-order load, i.e. the
      network-order scalar at src[at..]. */
  method ReadScalarSwapped(src: array<byte>, at: nat, w: nat) returns (v: nat, n: nat)
    requires ScalarWidth(w) && at + w <= src.Length
    ensures n == w && v < Limit(w)
    ensures NetBytes(w, v) == src[at..at + w]
  {
    var h;
    h, n := ReadScalar(src, at, w);
    v := ByteSwap(w, h);
    assert HostBytes(w, h) == NetBytes(w, v) by {
      ByteSwapReverses(w, h);
      NetIsReversedHost(w, v);
      ByteSwapReverses(w, v);
      ByteSwapInvolutive(w, h);
    }
  }

  /** A store followed by a load at the same place gives the value back, in
      either byte order. */
  lemma WriteThenRead(w: nat, v: nat, s: seq<byte>)
    requires ScalarWidth(w) && v < Limit(w)
    ensures HostBytes(w, v) == s ==> FromHost(s) == v
    ensures NetBytes(w, v) == s ==> FromNet(s) == v
  {
    FromHostBytes(w, v);
    FromNetBytes(w, v);
  }

  // ---- padding ----

  predicate IsPow2(a: nat) {
    a == 1 || (a > 1 && a % 2 == 0 && IsPow2(a / 2))
  }

  /** x & ~(a - 1) on a two's-complement integer, for a power of two a: it
      clears the low bits, which rounds down to a multiple of a (also for
      negative x, since Dafny's / rounds towards minus infinity for a > 0). */
  function AlignDown(x: int, a: nat): (r: int)
    requires IsPow2(a)
    ensures r <= x < r + a && r % a == 0
  {
    DivModUnique(x / a, a, 0);
    (x / a) * a
  }

  /** PadSize: the number of bytes that take n up to the next multiple of a. */
  function PadSize(n: int, a: nat): int
    requires IsPow2(a)
  {
    AlignDown(n + a - 1, a) - n
  }

  lemma PadSizeBounds(n: int, a: nat)
    requires IsPow2(a)
    ensures 0 <= PadSize(n, a) < a
    ensures (n + PadSize(n, a)) % a == 0
    ensures n % a == 0 ==> PadSize(n, a) == 0
  {
    if n % a == 0 {
      assert n == (n / a) * a;
      DivModUnique(n / a, a, a - 1);
    }
  }

  /** The alignment the SCTP and STUN codecs use. */
  lemma PadSize4(n: int)
    ensures IsPow2(4)
    ensures PadSize(n, 4) == (4 - n % 4) % 4
  {
    assert IsPow2(4) by { assert IsPow2(2); }
    PadSizeBounds(n, 4);
    var p := PadSize(n, 4);
    assert (n + p) % 4 == 0;
    DivModUnique(n / 4, 4, n % 4);
  }

  /** Padding to the next multiple of four. */
  function Pad4(n: int): (r: int)
    ensures 0 <= r < 4 && (n + r) % 4 == 0
  {
    (4 - n % 4) % 4
  }

  /** Pad4 is the PadSize(n, 4) the SCTP and STUN codecs call. */
  lemma Pad4IsPadSize(n: int)
    ensures IsPow2(4) && Pad4(n) == PadSize(n, 4)
  {
    PadSize4(n);
  }
}
