/** String helpers of the WebUDP library, generic over the element type. */
module WuString {

  /** The index of the first occurrence of token in s, or -1: the
      specification of FindTokenIndex. */
  function FirstIndex<T(==)>(s: seq<T>, token: T): (r: int)
    ensures -1 <= r < |s|
    ensures r >= 0 ==> s[r] == token && token !in s[..r]
    ensures r == -1 <==> token !in s
  {
    if s == [] then -1
    else if s[0] == token then 0
    else
      var k := FirstIndex(s[1..], token);
      if k == -1 then -1
      else
        assert s[1..][..k] == s[1..k + 1];
        k + 1
  }

  /** FindTokenIndex: scans the first len elements for token. */
  method FindTokenIndex<T(==)>(s: seq<T>, len: nat, token: T) returns (r: int)
    requires len <= |s|
    ensures r == FirstIndex(s[..len], token)
    ensures r == -1 <==> token !in s[..len]
    ensures r >= 0 ==> r < len && s[r] == token && forall j :: 0 <= j < r ==> s[j] != token
  {
    var i := 0;
    while i < len
      invariant 0 <= i <= len
      invariant token !in s[..i]
    {
      if s[i] == token {
        assert s[..len][..i] == s[..i];
        FirstFoundAt(s[..len], token, i);
        return i;
      }
      assert s[..i + 1] == s[..i] + [s[i]];
      i := i + 1;
    }
    assert s[..len] == s[..i];
    return -1;
  }

  lemma FirstFoundAt<T>(s: seq<T>, token: T, i: nat)
    requires i < |s| && s[i] == token && token !in s[..i]
    ensures FirstIndex(s, token) == i
  {
  }

  /** MemEqual: false when the lengths differ, else element-wise equality. */
  function MemEqual<T(==)>(a: seq<T>, b: seq<T>): (r: bool)
    ensures |a| != |b| ==> !r
    ensures r <==> a == b
  {
    |a| == |b| && forall i :: 0 <= i < |a| ==> a[i] == b[i]
  }

  lemma MemEqualReflexiveSymmetric<T>(a: seq<T>, b: seq<T>)
    ensures MemEqual(a, a)
    ensures MemEqual(a, b) == MemEqual(b, a)
  {
  }
}
