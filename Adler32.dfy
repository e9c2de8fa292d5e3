/** The Adler-32 checksum of section 2.2 of RFC 1950 as the scroll detector
    uses it: a checksum built byte by byte, and a rolling update that slides
    a fixed-size window by one byte. */
module Adler32 {
  import opened Bytes

  const Base: int := 65521

  // ---- the reference definition (section 2.2 of RFC 1950) ----

  function Sum(w: seq<byte>): int
  {
    if w == [] then 0 else w[0] + Sum(w[1..])
  }

  /** The sum of w[i] weighted by |w| - i, the number of running sums it
      contributes to. */
  function Weighted(w: seq<byte>): int
  {
    if w == [] then 0 else |w| * w[0] + Weighted(w[1..])
  }

  /** s1 = 1 plus the bytes, s2 = the sum of the running s1 values, both
      modulo 65521, packed as s2 * 65536 + s1. */
  function Adler(w: seq<byte>): u32
  {
    Pack((|w| + Weighted(w)) % Base, (1 + Sum(w)) % Base)
  }

  /** (sum2 << 16) | sum1 for two halves below 65536. */
  function Pack(s2: int, s1: int): u32
    requires 0 <= s2 < Base && 0 <= s1 < Base
  {
    s2 * TWO16 + s1
  }

  /** A 32-bit hash whose two halves are reduced modulo 65521. */
  predicate Reduced(h: u32)
  {
    h / TWO16 < Base && h % TWO16 < Base
  }

  // ---- the byte-by-byte computation of eat ----

  /** The (sum1, sum2) pair after eating w from the reset state. */
  function Sums(w: seq<byte>): (r: (int, int))
    ensures 0 <= r.0 < Base && 0 <= r.1 < Base
  {
    if w == [] then (1, 0)
    else
      var p := Sums(w[..|w| - 1]);
      var s1 := (p.0 + w[|w| - 1]) % Base;
      (s1, (p.1 + s1) % Base)
  }

  // ---- arithmetic helpers ----

  lemma ModShift(x: int, y: int)
    ensures (x % Base + y) % Base == (x + y) % Base
  {
    var k := x / Base;
    var r := (x % Base + y) % Base;
    DivModUnique((x % Base + y) / Base, Base, r);
    assert x + y == (k + (x % Base + y) / Base) * Base + r;
    DivModUnique(k + (x % Base + y) / Base, Base, r);
  }

  /** C's `%` on int, which truncates toward zero. */
  function CRem(x: int, m: int): int
    requires m > 0
  {
    if x >= 0 then x % m else -((-x) % m)
  }

  /** Adding the modulus to a negative truncated remainder gives the
      Euclidean one. */
  lemma CRemFixed(x: int)
    ensures var c := CRem(x, Base); (if c < 0 then c + Base else c) == x % Base
  {
    if x < 0 {
      var q, r := (-x) / Base, (-x) % Base;
      if r == 0 {
        DivModUnique(-q, Base, 0);
      } else {
        DivModUnique(-q - 1, Base, Base - r);
      }
    }
  }

  lemma {:induction false} SumSnoc(w: seq<byte>, x: byte)
    ensures Sum(w + [x]) == Sum(w) + x
  {
    if w != [] {
      assert (w + [x])[1..] == w[1..] + [x];
      SumSnoc(w[1..], x);
    }
  }

  lemma {:induction false} WeightedSnoc(w: seq<byte>, x: byte)
    ensures Weighted(w + [x]) == Weighted(w) + Sum(w) + x
  {
    if w != [] {
      assert (w + [x])[1..] == w[1..] + [x];
      WeightedSnoc(w[1..], x);
      assert (|w| + 1) * w[0] == |w| * w[0] + w[0];
    }
  }

  // ---- the byte-by-byte computation is the checksum ----

  /** The running sums of eat are the reference sums reduced modulo 65521. */
  lemma {:induction false} SumsClosed(w: seq<byte>)
    ensures Sums(w) == ((1 + Sum(w)) % Base, (|w| + Weighted(w)) % Base)
  {
    if w != [] {
      var init, x := w[..|w| - 1], w[|w| - 1];
      assert w == init + [x];
      SumsClosed(init);
      var p := Sums(init);
      var s1 := (p.0 + x) % Base;
      assert Sums(w) == (s1, (p.1 + s1) % Base);
      var a, b := 1 + Sum(init), |init| + Weighted(init);
      SumSnoc(init, x);
      WeightedSnoc(init, x);
      assert |w| + Weighted(w) == b + (1 + Sum(w));
      ModShift(a, x);
      assert s1 == (1 + Sum(w)) % Base;
      ModShift(b, s1);
      ModShift(1 + Sum(w), b);
    }
  }

  /** After eating w from the reset state, the hash is the Adler-32 of w. */
  lemma EatenIsAdler(w: seq<byte>)
    ensures Pack(Sums(w).1, Sums(w).0) == Adler(w)
  {
    SumsClosed(w);
  }

  /** The known value of the checksum of "Wikipedia". */
  lemma WikipediaVector()
    ensures Adler([87, 105, 107, 105, 112, 101, 100, 105, 97]) == 0x11E6_0398
  {
    var w: seq<byte> := [87, 105, 107, 105, 112, 101, 100, 105, 97];
    assert Sum(w[8..]) == 97;
    assert Sum(w[7..]) == 202;
    assert Sum(w[6..]) == 302;
    assert Sum(w[5..]) == 403;
    assert Sum(w[4..]) == 515;
    assert Sum(w[3..]) == 620;
    assert Sum(w[2..]) == 727;
    assert Sum(w[1..]) == 832;
    assert Sum(w) == 919;
    assert Weighted(w[8..]) == 97;
    assert Weighted(w[7..]) == 307;
    assert Weighted(w[6..]) == 607;
    assert Weighted(w[5..]) == 1011;
    assert Weighted(w[4..]) == 1571;
    assert Weighted(w[3..]) == 2201;
    assert Weighted(w[2..]) == 2950;
    assert Weighted(w[1..]) == 3790;
    assert Weighted(w) == 4573;
  }

  // ---- the rolling update ----

  /** The low half of update: the sum moved by the two bytes, brought
      back into range by one addition or subtraction of the modulus. */
  function RollLow(s1: int, outByte: byte, inByte: byte): (r: int)
    requires 0 <= s1 < Base
    ensures r == (s1 + inByte - outByte) % Base
  {
    var a := s1 + inByte - outByte;
    if a >= Base then DivModUnique(1, Base, a - Base); a - Base
    else if a < 0 then DivModUnique(-1, Base, a + Base); a + Base
    else DivModUnique(0, Base, a); a
  }

  /** The high half of update: C's truncating `%`, and the modulus added to
      a negative remainder. */
  function RollHigh(x: int): (r: int)
    ensures r == x % Base
  {
    var b := CRem(x, Base);
    CRemFixed(x);
    if b < 0 then b + Base else b
  }

  /** The hash update computes from a hash, the window length and the byte
      leaving and the byte entering the window. */
  function Rolled(h: u32, len: int, outByte: byte, inByte: byte): (r: u32)
    requires Reduced(h)
    ensures Reduced(r)
  {
    var s1 := RollLow(h % TWO16, outByte, inByte);
    var s2 := RollHigh(h / TWO16 - Drop(len, outByte) + s1 - 1);
    PackHalves(s2, s1);
    Pack(s2, s1)
  }

  /** `len * outchar`: the leaving byte's share of sum2. */
  function Drop(len: int, outByte: byte): int
  {
    len * outByte
  }

  lemma PackHalves(s2: int, s1: int)
    requires 0 <= s2 < Base && 0 <= s1 < Base
    ensures Pack(s2, s1) / TWO16 == s2 && Pack(s2, s1) % TWO16 == s1
  {
    DivModUnique(s2, TWO16, s1);
  }

  /** The reference sums of a window moved by one byte, before
      reduction. */
  lemma {:induction false} SlideSums(w: seq<byte>, inByte: byte)
    requires |w| > 0
    ensures 1 + Sum(w[1..] + [inByte]) == 1 + Sum(w) - w[0] + inByte
    ensures |w| + Weighted(w[1..] + [inByte]) ==
      (|w| + Weighted(w)) - Drop(|w|, w[0]) + (1 + Sum(w[1..] + [inByte])) - 1
  {
    SumSnoc(w[1..], inByte);
    WeightedSnoc(w[1..], inByte);
  }

  /** Sliding the window: if the hash is the Adler-32 of the window w and
      the byte leaving is w's first, the update gives the Adler-32 of the
      window moved one byte on. */
  lemma RollingUpdate(w: seq<byte>, inByte: byte)
    requires |w| > 0
    ensures Rolled(Adler(w), |w|, w[0], inByte) == Adler(w[1..] + [inByte])
  {
    var w' := w[1..] + [inByte];
    var sa, sb := 1 + Sum(w), |w| + Weighted(w);
    var sa', sb' := 1 + Sum(w'), |w'| + Weighted(w');
    SlideSums(w, inByte);
    PackHalves(sb % Base, sa % Base);
    var s1 := RollLow(sa % Base, w[0], inByte);
    ModShift(sa, inByte - w[0]);
    assert s1 == sa' % Base;
    var d := - Drop(|w|, w[0]) + s1 - 1;
    ModShift(sb, d);
    ModShift(sa', sb - Drop(|w|, w[0]) - 1);
    assert (sb % Base + d) % Base == sb' % Base;
  }

  // ---- the class ----

  /** Windows whose update arithmetic stays inside a 32-bit int. */
  const MaxWindow: int := 0x10_0000

  class Adler32 {
    var sum1: int
    var sum2: int
    var len: int
    var hash: u32
    /** The bytes eaten since construction or the last reset. */
    ghost var eaten: seq<byte>

    ghost predicate Valid()
      reads this
    {
      0 <= len <= MaxWindow && Reduced(hash) && (sum1, sum2) == Sums(eaten)
    }

    /** Adler32(window): the reset sums, hash 0 and the window length. */
    constructor (window: int)
      requires 0 <= window <= MaxWindow
      ensures Valid() && eaten == []
      ensures sum1 == 1 && sum2 == 0 && hash == 0 && len == window
    {
      sum1, sum2, len, hash := 1, 0, window, 0;
      eaten := [];
    }

    /** eat: one more byte into the running sums; the hash is the Adler-32
        of every byte eaten since the last reset. */
    method Eat(inChar: byte)
      requires Valid()
      modifies this`sum1, this`sum2, this`hash, this`eaten
      ensures Valid() && eaten == old(eaten) + [inChar]
      ensures (sum1, sum2) == Sums(eaten) && hash == Adler(eaten)
    {
      eaten := eaten + [inChar];
      assert eaten[..|eaten| - 1] == old(eaten);
      sum1 := (sum1 + inChar) % Base;
      sum2 := (sum2 + sum1) % Base;
      EatenIsAdler(eaten);
      PackHalves(sum2, sum1);
      hash := sum2 * TWO16 + sum1;
    }

    /** reset: sum1 = 1, sum2 = 0, hash = 0. */
    method Reset()
      requires Valid()
      modifies this`sum1, this`sum2, this`hash, this`eaten
      ensures Valid() && eaten == [] && sum1 == 1 && sum2 == 0 && hash == 0 && len == old(len)
    {
      sum1, sum2, hash := 1, 0, 0;
      eaten := [];
    }

    /** update: slides the window whose checksum the hash holds, working on
        the halves of the hash alone; sum1 and sum2 are not touched. */
    method Update(outChar: byte, inChar: byte)
      requires Valid()
      modifies this`hash
      ensures Valid() && hash == Rolled(old(hash), len, outChar, inChar)
    {
      var s2 := (hash / TWO16) % TWO16;
      var s1 := hash % TWO16;
      assert s2 == hash / TWO16;
      s1 := s1 + inChar - outChar;
      if s1 >= Base {
        s1 := s1 - Base;
      } else if s1 < 0 {
        s1 := s1 + Base;
      }
      assert s1 == RollLow(hash % TWO16, outChar, inChar);
      var drop := Drop(len, outChar);
      ghost var x := hash / TWO16 - drop + s1 - 1;
      s2 := CRem(s2 - drop + s1 - 1, Base);
      assert s2 == CRem(x, Base);
      if s2 < 0 {
        s2 := s2 + Base;
      }
      assert s2 == RollHigh(x);
      PackHalves(s2, s1);
      hash := Pack(s2, s1);
    }
  }

  /** Eating a window and then rolling it keeps the hash equal to the
      Adler-32 of the current window. */
  method RollOver(w: seq<byte>, next: seq<byte>) returns (h: u32)
    requires 0 < |w| <= MaxWindow && |next| <= |w|
    ensures h == Adler(w[|next|..] + next)
  {
    var a := new Adler32(|w|);
    for i := 0 to |w|
      invariant a.Valid() && a.eaten == w[..i] && a.len == |w|
      invariant i > 0 ==> a.hash == Adler(a.eaten)
    {
      assert w[..i + 1] == w[..i] + [w[i]];
      a.Eat(w[i]);
    }
    assert w[..|w|] == w;
    ghost var win := w;
    for j := 0 to |next|
      invariant a.Valid() && a.len == |w| && |win| == |w|
      invariant win == w[j..] + next[..j] && a.hash == Adler(win)
    {
      RollingUpdate(win, next[j]);
      assert win[0] == w[j];
      a.Update(w[j], next[j]);
      assert w[j..][1..] == w[j + 1..];
      assert next[..j + 1] == next[..j] + [next[j]];
      win := win[1..] + [next[j]];
    }
    assert next[..|next|] == next;
    return a.hash;
  }
}
