/** The xoroshiro128+ generator WebUDP uses for ICE credentials and SCTP
    tags. The seed, which the source derives from rand(), is a parameter. */
module WuRng {

  /** The 52 letters random strings are drawn from. */
  const CharacterTable: string := "abcdefghijklmnopqrstuvwxyzABCDEFGHIJKLMNOPQRSTUVWXYZ"

  /** Rotate left by k bits, 0 < k < 64. */
  function Rotl(x: bv64, k: bv64): bv64
    requires 0 < k < 64
  {
    (x << k) | (x >> (64 - k))
  }

  /** At the two amounts the generator uses, Rotl is a rotation: it agrees
      with the built-in RotateLeft, and the complementary amount undoes it. */
  lemma Rotl55(x: bv64)
    ensures Rotl(x, 55) == x.RotateLeft(55)
    ensures Rotl(Rotl(x, 55), 9) == x
  {
  }

  lemma Rotl36(x: bv64)
    ensures Rotl(x, 36) == x.RotateLeft(36)
    ensures Rotl(Rotl(x, 36), 28) == x
  {
  }

  /** The generator's two state words. */
  datatype State = State(s0: bv64, s1: bv64)

  /** The output of one step: the sum of the state words, modulo 2^64. */
  function Output(s: State): bv64 {
    s.s0 + s.s1
  }

  /** The state after one step: s1 ^= s0, then s0 = rotl(s0, 55) ^ s1 ^
      (s1 << 14) and s1 = rotl(s1, 36). The rotations are written with the
      built-in RotateLeft, which Rotl55 and Rotl36 show rotl agrees with. */
  function Step(s: State): State {
    var t := s.s1 ^ s.s0;
    State(s.s0.RotateLeft(55) ^ t ^ (t << 14), t.RotateLeft(36))
  }

  /** The state after n steps from s. */
  function StateAfter(s: State, n: nat): State {
    if n == 0 then s else Step(StateAfter(s, n - 1))
  }

  /** The (n+1)-th output from s. */
  function NthOutput(s: State, n: nat): bv64 {
    Output(StateAfter(s, n))
  }

  /** The character chosen by one output: table[next % 52]. */
  function CharOf(x: bv64): (c: char)
    ensures c in CharacterTable
  {
    CharacterTable[(x as int) % 52]
  }

  class Rng {
    var s0: bv64
    var s1: bv64

    /** WuRngInit: both state words set to the seed. */
    constructor Init(seed: bv64)
      ensures s0 == seed && s1 == seed
    {
      s0, s1 := seed, seed;
    }

    /** WuRngNext: returns s0 + s1 and advances the state one step. */
    method Next() returns (result: bv64)
      modifies this
      ensures result == Output(old(State(s0, s1)))
      ensures State(s0, s1) == Step(old(State(s0, s1)))
    {
      var s := State(s0, s1);
      result := Output(s);
      var n := Step(s);
      s0, s1 := n.s0, n.s1;
    }
  }

  /** WuRandomString: fills out[..length] with letters, the i-th chosen by
      the i-th output of a generator seeded with seed. */
  method RandomString(out: array<char>, length: nat, seed: bv64)
    requires length <= out.Length
    modifies out
    ensures forall i :: 0 <= i < length ==> out[i] == CharOf(NthOutput(State(seed, seed), i))
    ensures forall i :: 0 <= i < length ==> out[i] in CharacterTable
    ensures out[length..] == old(out[length..])
  {
    var rng := new Rng.Init(seed);
    for i := 0 to length
      invariant State(rng.s0, rng.s1) == StateAfter(State(seed, seed), i)
      invariant forall j :: 0 <= j < i ==> out[j] == CharOf(NthOutput(State(seed, seed), j))
      invariant out[length..] == old(out[length..])
    {
      var x := rng.Next();
      out[i] := CharOf(x);
    }
  }

  /** WuRandomU64: the first output of a generator seeded with seed. */
  method RandomU64(seed: bv64) returns (r: bv64)
    ensures r == seed + seed
    ensures r == NthOutput(State(seed, seed), 0)
  {
    var rng := new Rng.Init(seed);
    r := rng.Next();
  }

  /** WuRandomU32: the low 32 bits of WuRandomU64. */
  method RandomU32(seed: bv64) returns (r: bv32)
    ensures r as bv64 == (seed + seed) & 0xFFFF_FFFF
  {
    var x := RandomU64(seed);
    r := (x & 0xFFFF_FFFF) as bv32;
  }
}
