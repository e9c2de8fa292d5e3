/** Fixed-width unsigned integers and their byte encodings, shared by every
    wire format in the model. Multi-byte values are encoded most significant
    byte first ("BE", network order) or least significant byte first ("LE",
    the host order of the x86 machines the server runs on). */
module Bytes {

  type byte = x: int | 0 <= x < 0x100
  type u16 = x: int | 0 <= x < 0x1_0000
  type u32 = x: int | 0 <= x < 0x1_0000_0000
  type u64 = x: int | 0 <= x < 0x1_0000_0000_0000_0000
  type i32 = x: int | -0x8000_0000 <= x < 0x8000_0000

  const TWO16: int := 0x1_0000
  const TWO32: int := 0x1_0000_0000
  const TWO64: int := 0x1_0000_0000_0000_0000

  /** Truncating casts, as C performs them on unsigned conversion. */
  function ToU8(x: int): byte { x % 0x100 }
  function ToU16(x: int): u16 { x % TWO16 }
  function ToU32(x: int): u32 { x % TWO32 }
  function ToU64(x: int): u64 { x % TWO64 }

  /** Two's complement bit pattern of a signed 32-bit value. */
  function I32Bits(x: i32): (r: u32)
    ensures x >= 0 ==> r == x
    ensures x < 0 ==> r == x + TWO32
  {
    if x >= 0 then x else x + TWO32
  }

  /** Euclidean division is unique: the quotient and remainder of k*a+r. */
  lemma DivModUnique(k: int, a: int, r: int)
    requires a > 0 && 0 <= r < a
    ensures (k * a + r) / a == k && (k * a + r) % a == r
  {
    var y := k * a + r;
    var m := y / a - k;
    assert a * m == r - y % a;
  }

  /** n zero bytes. */
  function Zeros(n: nat): (r: seq<byte>)
    ensures |r| == n
  {
    seq(n, _ => 0)
  }

  // ---- big-endian ----

  function BE16(v: u16): (r: seq<byte>)
    ensures |r| == 2
  {
    [v / 0x100, v % 0x100]
  }

  function BE32(v: u32): (r: seq<byte>)
    ensures |r| == 4
  {
    BE16(v / TWO16) + BE16(v % TWO16)
  }

  function BE64(v: u64): (r: seq<byte>)
    ensures |r| == 8
  {
    BE32(v / TWO32) + BE32(v % TWO32)
  }

  function GetBE16(s: seq<byte>, o: nat): u16
    requires o + 2 <= |s|
  {
    (s[o] as int) * 0x100 + s[o + 1]
  }

  function GetBE32(s: seq<byte>, o: nat): u32
    requires o + 4 <= |s|
  {
    GetBE16(s, o) * TWO16 + GetBE16(s, o + 2)
  }

  function GetBE64(s: seq<byte>, o: nat): u64
    requires o + 8 <= |s|
  {
    GetBE32(s, o) * TWO32 + GetBE32(s, o + 4)
  }

  // ---- little-endian ----

  function LE16(v: u16): (r: seq<byte>)
    ensures |r| == 2
  {
    [v % 0x100, v / 0x100]
  }

  function LE32(v: u32): (r: seq<byte>)
    ensures |r| == 4
  {
    LE16(v % TWO16) + LE16(v / TWO16)
  }

  function LE64(v: u64): (r: seq<byte>)
    ensures |r| == 8
  {
    LE32(v % TWO32) + LE32(v / TWO32)
  }

  function GetLE16(s: seq<byte>, o: nat): u16
    requires o + 2 <= |s|
  {
    (s[o] as int) + (s[o + 1] as int) * 0x100
  }

  function GetLE32(s: seq<byte>, o: nat): u32
    requires o + 4 <= |s|
  {
    GetLE16(s, o) + GetLE16(s, o + 2) * TWO16
  }

  function GetLE64(s: seq<byte>, o: nat): u64
    requires o + 8 <= |s|
  {
    GetLE32(s, o) + GetLE32(s, o + 4) * TWO32
  }

  // ---- decoding what was encoded, wherever it sits in a buffer ----

  lemma GetBE16At(s: seq<byte>, o: nat, v: u16)
    requires o + 2 <= |s| && s[o..o + 2] == BE16(v)
    ensures GetBE16(s, o) == v
  {
    assert s[o] == BE16(v)[0] && s[o + 1] == BE16(v)[1];
  }

  lemma GetBE32At(s: seq<byte>, o: nat, v: u32)
    requires o + 4 <= |s| && s[o..o + 4] == BE32(v)
    ensures GetBE32(s, o) == v
  {
    assert s[o..o + 2] == BE16(v / TWO16) by { assert s[o..o + 2] == s[o..o + 4][..2]; }
    assert s[o + 2..o + 4] == BE16(v % TWO16) by { assert s[o + 2..o + 4] == s[o..o + 4][2..]; }
    GetBE16At(s, o, v / TWO16);
    GetBE16At(s, o + 2, v % TWO16);
  }

  lemma GetBE64At(s: seq<byte>, o: nat, v: u64)
    requires o + 8 <= |s| && s[o..o + 8] == BE64(v)
    ensures GetBE64(s, o) == v
  {
    assert s[o..o + 4] == BE32(v / TWO32) by { assert s[o..o + 4] == s[o..o + 8][..4]; }
    assert s[o + 4..o + 8] == BE32(v % TWO32) by { assert s[o + 4..o + 8] == s[o..o + 8][4..]; }
    GetBE32At(s, o, v / TWO32);
    GetBE32At(s, o + 4, v % TWO32);
  }

  lemma GetLE16At(s: seq<byte>, o: nat, v: u16)
    requires o + 2 <= |s| && s[o..o + 2] == LE16(v)
    ensures GetLE16(s, o) == v
  {
    assert s[o] == LE16(v)[0] && s[o + 1] == LE16(v)[1];
  }

  lemma GetLE32At(s: seq<byte>, o: nat, v: u32)
    requires o + 4 <= |s| && s[o..o + 4] == LE32(v)
    ensures GetLE32(s, o) == v
  {
    assert s[o..o + 2] == LE16(v % TWO16) by { assert s[o..o + 2] == s[o..o + 4][..2]; }
    assert s[o + 2..o + 4] == LE16(v / TWO16) by { assert s[o + 2..o + 4] == s[o..o + 4][2..]; }
    GetLE16At(s, o, v % TWO16);
    GetLE16At(s, o + 2, v / TWO16);
  }

  lemma GetLE64At(s: seq<byte>, o: nat, v: u64)
    requires o + 8 <= |s| && s[o..o + 8] == LE64(v)
    ensures GetLE64(s, o) == v
  {
    assert s[o..o + 4] == LE32(v % TWO32) by { assert s[o..o + 4] == s[o..o + 8][..4]; }
    assert s[o + 4..o + 8] == LE32(v / TWO32) by { assert s[o + 4..o + 8] == s[o..o + 8][4..]; }
    GetLE32At(s, o, v % TWO32);
    GetLE32At(s, o + 4, v / TWO32);
  }

  // ---- encoding what was decoded ----

  lemma BE16OfGet(s: seq<byte>, o: nat)
    requires o + 2 <= |s|
    ensures BE16(GetBE16(s, o)) == s[o..o + 2]
  {
  }

  lemma BE32OfGet(s: seq<byte>, o: nat)
    requires o + 4 <= |s|
    ensures BE32(GetBE32(s, o)) == s[o..o + 4]
  {
    var hi, lo := GetBE16(s, o), GetBE16(s, o + 2);
    DivModUnique(hi, TWO16, lo);
    BE16OfGet(s, o);
    BE16OfGet(s, o + 2);
    assert s[o..o + 4] == s[o..o + 2] + s[o + 2..o + 4];
  }

  lemma BE64OfGet(s: seq<byte>, o: nat)
    requires o + 8 <= |s|
    ensures BE64(GetBE64(s, o)) == s[o..o + 8]
  {
    var hi, lo := GetBE32(s, o), GetBE32(s, o + 4);
    DivModUnique(hi, TWO32, lo);
    BE32OfGet(s, o);
    BE32OfGet(s, o + 4);
    assert s[o..o + 8] == s[o..o + 4] + s[o + 4..o + 8];
  }

  lemma LE16OfGet(s: seq<byte>, o: nat)
    requires o + 2 <= |s|
    ensures LE16(GetLE16(s, o)) == s[o..o + 2]
  {
  }

  lemma LE32OfGet(s: seq<byte>, o: nat)
    requires o + 4 <= |s|
    ensures LE32(GetLE32(s, o)) == s[o..o + 4]
  {
    var lo, hi := GetLE16(s, o), GetLE16(s, o + 2);
    DivModUnique(hi, TWO16, lo);
    LE16OfGet(s, o);
    LE16OfGet(s, o + 2);
    assert s[o..o + 4] == s[o..o + 2] + s[o + 2..o + 4];
  }

  lemma LE64OfGet(s: seq<byte>, o: nat)
    requires o + 8 <= |s|
    ensures LE64(GetLE64(s, o)) == s[o..o + 8]
  {
    var lo, hi := GetLE32(s, o), GetLE32(s, o + 4);
    DivModUnique(hi, TWO32, lo);
    LE32OfGet(s, o);
    LE32OfGet(s, o + 4);
    assert s[o..o + 8] == s[o..o + 4] + s[o + 4..o + 8];
  }
}
