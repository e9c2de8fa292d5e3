/** Query strings and percent-encoding of the web server (section 2.1 of
    RFC 3986): the value of a named parameter of an API request, and the
    percent-decoding and -encoding of names. A C string is modelled by its
    bytes before the terminating NUL; an output buffer is an array that
    receives the converted bytes and a NUL. */
module WsQuery {
  import opened Wrappers
  import opened Bytes
  import opened WuString

  const Amp: byte := 0x26
  const Equals: byte := 0x3D
  const Percent: byte := 0x25
  const Slash: byte := 0x2F
  const Underscore: byte := 0x5F

  // ---- parse_get ----

  /** strchrnul(s + start, c): the first index from start on that holds c,
      or the end of the string. */
  function IndexFrom(s: seq<byte>, start: nat, c: byte): (r: nat)
    requires start <= |s|
    ensures start <= r <= |s|
    ensures forall k :: start <= k < r ==> s[k] != c
    ensures r < |s| ==> s[r] == c
    decreases |s| - start
  {
    if start == |s| || s[start] == c then start else IndexFrom(s, start + 1, c)
  }

  /** The scanning loop of strchrnul. */
  method ScanFor(s: seq<byte>, start: nat, c: byte) returns (r: nat)
    requires start <= |s|
    ensures r == IndexFrom(s, start, c)
  {
    r := start;
    while r < |s| && s[r] != c
      invariant start <= r <= |s|
      invariant IndexFrom(s, r, c) == IndexFrom(s, start, c)
    {
      r := r + 1;
    }
  }

  /** strncmp(start, opt, strlen(opt)) == 0: the rest of the string from
      start begins with opt. */
  predicate HasPrefix(s: seq<byte>, start: nat, opt: seq<byte>)
    requires start <= |s|
  {
    |opt| <= |s| - start && s[start..start + |opt|] == opt
  }

  /** What parse_get hands back: its static empty string (with *len 0),
      or the offset of the value in the query and the pointer difference
      from the value to the segment end that it stores in *len. */
  datatype Param = Missing | Value(at: nat, span: int)

  /** *len: the difference converted to unsigned. */
  function Len(p: Param): u32
  {
    if p.Missing? then 0 else ToU32(p.span)
  }

  /** parse_get as written, from the segment at start on: the first segment
      that begins with opt decides; the value starts after the first '='
      found from the segment start on, anywhere in the rest of the string,
      and its length runs to the segment end. */
  function GetFromAsWritten(s: seq<byte>, opt: seq<byte>, start: nat): (r: Param)
    requires start <= |s|
    ensures r.Value? ==> 0 < r.at <= |s| && s[r.at - 1] == Equals
    decreases |s| - start
  {
    var end := IndexFrom(s, start, Amp);
    if HasPrefix(s, start, opt) then
      var eq := IndexFrom(s, start, Equals);
      if eq == |s| then Missing else Value(eq + 1, end - (eq + 1))
    else if end == |s| then Missing
    else GetFromAsWritten(s, opt, end + 1)
  }

  /** parse_get(in, opt, &len). */
  method ParseGet(s: seq<byte>, opt: seq<byte>) returns (r: Param)
    ensures r == GetFromAsWritten(s, opt, 0)
  {
    var start := 0;
    var end := ScanFor(s, start, Amp);
    while true
      invariant 0 <= start <= end <= |s| && end == IndexFrom(s, start, Amp)
      invariant GetFromAsWritten(s, opt, start) == GetFromAsWritten(s, opt, 0)
      decreases |s| - start
    {
      if HasPrefix(s, start, opt) {
        var eq := ScanFor(s, start, Equals);
        if eq == |s| {
          return Missing;
        }
        var arg := eq + 1;
        return Value(arg, end - arg);
      }
      if end == |s| {
        return Missing;
      }
      start := end + 1;
      end := ScanFor(s, start, Amp);
    }
  }

  /** "name&a=b" asked for "name": the first segment matches but holds no
      '=', so the '=' of the next segment is taken and the length, 4 - 7,
      wraps to 2^32 - 3; the callers then copy that many bytes. */
  lemma ParseGetOverrun()
    ensures var s: seq<byte> := [0x6E, 0x61, 0x6D, 0x65, Amp, 0x61, Equals, 0x62];
      GetFromAsWritten(s, s[..4], 0) == Value(7, -3) &&
      Len(GetFromAsWritten(s, s[..4], 0)) == TWO32 - 3
  {
    var s: seq<byte> := [0x6E, 0x61, 0x6D, 0x65, Amp, 0x61, Equals, 0x62];
    assert HasPrefix(s, 0, s[..4]);
    assert s[4] == Amp && forall k :: 0 <= k < 4 ==> s[k] != Amp;
    assert s[6] == Equals && forall k :: 0 <= k < 6 ==> s[k] != Equals;
  }

  /** parse_get as evidently intended: the '=' must lie inside the matching
      segment, so the value never leaves its segment. */
  function GetFrom(s: seq<byte>, opt: seq<byte>, start: nat): (r: Param)
    requires start <= |s|
    ensures r.Value? ==>
      0 < r.at && 0 <= r.span && r.at + r.span <= |s| && s[r.at - 1] == Equals &&
      (forall k :: r.at <= k < r.at + r.span ==> s[k] != Amp) &&
      (r.at + r.span == |s| || s[r.at + r.span] == Amp)
    decreases |s| - start
  {
    var end := IndexFrom(s, start, Amp);
    if HasPrefix(s, start, opt) then
      var eq := IndexFrom(s, start, Equals);
      if eq >= end then Missing else Value(eq + 1, end - (eq + 1))
    else if end == |s| then Missing
    else GetFrom(s, opt, end + 1)
  }

  /** The two agree exactly when the matching segment holds its '=' (or
      no '=' follows at all); otherwise the code as written runs past the
      segment with a negative length. */
  lemma {:induction false} GetFromAgrees(s: seq<byte>, opt: seq<byte>, start: nat)
    requires start <= |s|
    ensures GetFromAsWritten(s, opt, start) != GetFrom(s, opt, start) ==>
      GetFromAsWritten(s, opt, start).Value? && GetFromAsWritten(s, opt, start).span < 0
    decreases |s| - start
  {
    var end := IndexFrom(s, start, Amp);
    if !HasPrefix(s, start, opt) && end < |s| {
      GetFromAgrees(s, opt, end + 1);
    }
  }

  // ---- percent_decode ----

  predicate IsHexDigit(c: byte)
  {
    0x30 <= c <= 0x39 || 0x41 <= c <= 0x46 || 0x61 <= c <= 0x66
  }

  function HexVal(c: byte): (r: int)
    requires IsHexDigit(c)
    ensures 0 <= r < 16
  {
    if c <= 0x39 then c - 0x30 else if c <= 0x46 then c - 0x37 else c - 0x57
  }

  /** isspace in the C locale. */
  predicate IsSpace(c: byte)
  {
    c == 0x20 || 0x09 <= c <= 0x0D
  }

  /** strtol(hex, NULL, 16) of the two-character string a b: leading white
      space and a sign are accepted, a "0x" prefix without digits reads as
      0, and parsing stops at the first non-digit. */
  function Strtol2(a: byte, b: byte): int
  {
    if IsSpace(a) || a == 0x2B then (if IsHexDigit(b) then HexVal(b) else 0)
    else if a == 0x2D then (if IsHexDigit(b) then -HexVal(b) else 0)
    else if IsHexDigit(a) then
      if IsHexDigit(b) then 16 * HexVal(a) + HexVal(b) else HexVal(a)
    else 0
  }

  /** The byte stored for "%ab": the char conversion of the strtol value,
      with a decoded '/' turned into '_' when filtering. */
  function DecodedByte(a: byte, b: byte, filter: bool): byte
  {
    var c := ToU8(Strtol2(a, b));
    if filter && c == Slash then Underscore else c
  }

  /** percent_decode: other bytes are copied, "%ab" becomes one byte, and a
      '%' with fewer than two bytes after it ends the output. */
  function Decode(s: seq<byte>, filter: bool): seq<byte>
    decreases |s|
  {
    if s == [] then []
    else if s[0] != Percent then [s[0]] + Decode(s[1..], filter)
    else if |s| < 3 then []
    else [DecodedByte(s[1], s[2], filter)] + Decode(s[3..], filter)
  }

  /** Decoding never produces more bytes than it reads, and leaves a
      string without '%' as it is. */
  lemma {:induction false} DecodeShrinks(s: seq<byte>, filter: bool)
    ensures |Decode(s, filter)| <= |s|
    ensures Percent !in s ==> Decode(s, filter) == s
    decreases |s|
  {
    if s != [] {
      if s[0] != Percent {
        DecodeShrinks(s[1..], filter);
        if Percent !in s {
          assert Percent !in s[1..];
          assert s == [s[0]] + s[1..];
        }
      } else if |s| >= 3 {
        DecodeShrinks(s[3..], filter);
      }
    }
  }

  /** With the filter on, a '/' in the output was a '/' in the input: an
      encoded "%2F" cannot smuggle in a path separator. */
  lemma {:induction false} FilterBlocksSlash(s: seq<byte>)
    requires Slash !in s
    ensures Slash !in Decode(s, true)
    decreases |s|
  {
    if s != [] {
      if s[0] != Percent {
        FilterBlocksSlash(s[1..]);
      } else if |s| >= 3 {
        assert s[3..] == s[1..][2..];
        assert Slash !in s[3..];
        FilterBlocksSlash(s[3..]);
      }
    }
  }

  /** One step of the decoding loop. */
  lemma DecodeStep(s: seq<byte>, i: nat, filter: bool)
    requires i < |s|
    ensures s[i] != Percent ==> Decode(s[i..], filter) == [s[i]] + Decode(s[i + 1..], filter)
    ensures s[i] == Percent && i + 2 < |s| ==>
      Decode(s[i..], filter) == [DecodedByte(s[i + 1], s[i + 2], filter)] + Decode(s[i + 3..], filter)
    ensures s[i] == Percent && i + 2 >= |s| ==> Decode(s[i..], filter) == []
  {
    assert s[i..][1..] == s[i + 1..];
    if i + 2 < |s| {
      assert s[i..][3..] == s[i + 3..];
    }
  }

  /** One byte stored after the o already written. */
  method PutByte(dst: array<byte>, o: nat, c: byte, ghost done: seq<byte>)
    requires o < dst.Length && dst[..o] == done
    modifies dst
    ensures dst[..o + 1] == done + [c]
    ensures forall k :: 0 <= k < dst.Length && k != o ==> dst[k] == old(dst[k])
  {
    dst[o] := c;
    assert dst[..o + 1] == dst[..o] + [c];
  }

  /** percent_decode(src, dst, filter). */
  method PercentDecode(s: seq<byte>, dst: array<byte>, filter: bool)
    requires dst.Length > |Decode(s, filter)|
    modifies dst
    ensures dst[..|Decode(s, filter)|] == Decode(s, filter)
    ensures dst[|Decode(s, filter)|] == 0
    ensures dst[|Decode(s, filter)| + 1..] == old(dst[|Decode(s, filter)| + 1..])
  {
    ghost var d := Decode(s, filter);
    var i, o := 0, 0;
    ghost var done: seq<byte> := [];
    while i < |s|
      invariant 0 <= i <= |s|
      invariant o == |done| && done + Decode(s[i..], filter) == d
      invariant dst[..o] == done
      invariant forall k :: |d| <= k < dst.Length ==> dst[k] == old(dst[k])
    {
      DecodeStep(s, i, filter);
      var c: byte;
      if s[i] != Percent {
        c := s[i];
        i := i + 1;
      } else {
        if i + 2 >= |s| {
          break;
        }
        c := ToU8(Strtol2(s[i + 1], s[i + 2]));
        if filter && c == Slash {
          c := Underscore;
        }
        i := i + 3;
      }
      AppendAssoc(done, [c], Decode(s[i..], filter));
      PutByte(dst, o, c, done);
      done := done + [c];
      o := o + 1;
    }
    assert o == |d|;
    dst[o] := 0;
  }

  // ---- percent_encode ----

  /** isalnum in the C locale, '.' and ','. */
  predicate Kept(c: byte)
  {
    0x30 <= c <= 0x39 || 0x41 <= c <= 0x5A || 0x61 <= c <= 0x7A || c == 0x2E || c == 0x2C
  }

  /** The upper-case hexadecimal digit of a value below 16 ("%X"). */
  function HexUpper(d: int): (r: byte)
    requires 0 <= d < 16
    ensures IsHexDigit(r) && HexVal(r) == d && !IsSpace(r) && r != 0x2B && r != 0x2D
  {
    if d < 10 then 0x30 + d else 0x37 + d
  }

  /** The encoding of one byte as evidently intended: kept, or '%' and two
      upper-case hexadecimal digits of its unsigned value. */
  function EncodeByte(c: byte): (r: seq<byte>)
    ensures |r| == 1 || |r| == 3
  {
    if Kept(c) then [c] else [Percent, HexUpper(c / 16), HexUpper(c % 16)]
  }

  /** The encoding of one byte as written: *src is a signed char, so a byte
      of 0x80 or more is printed by "%02X" as eight digits FFFFFFxx of which
      the next writes keep only "FF". */
  function EncodeByteAsWritten(c: byte): (r: seq<byte>)
    ensures |r| == 1 || |r| == 3
  {
    if Kept(c) then [c]
    else if c < 0x80 then [Percent, HexUpper(c / 16), HexUpper(c % 16)]
    else [Percent, 0x46, 0x46]
  }

  function Encode(s: seq<byte>): seq<byte>
  {
    if s == [] then [] else EncodeByte(s[0]) + Encode(s[1..])
  }

  function EncodeAsWritten(s: seq<byte>): seq<byte>
  {
    if s == [] then [] else EncodeByteAsWritten(s[0]) + EncodeAsWritten(s[1..])
  }

  /** Decoding (without the filter) undoes the intended encoding, for
      every byte string. */
  lemma {:induction false} DecodeEncode(s: seq<byte>)
    ensures Decode(Encode(s), false) == s
  {
    if s != [] {
      var c := s[0];
      var e := Encode(s);
      DecodeEncode(s[1..]);
      if Kept(c) {
        assert e[1..] == Encode(s[1..]);
      } else {
        assert e[3..] == Encode(s[1..]);
        HexPair(c);
      }
    }
  }

  /** The two digits written for a byte read back as that byte. */
  lemma HexPair(c: byte)
    ensures DecodedByte(HexUpper(c / 16), HexUpper(c % 16), false) == c
  {
    assert 16 * (c / 16) + c % 16 == c;
  }

  /** On 7-bit input the code as written encodes as intended, so decoding
      gives the input back. */
  lemma {:induction false} EncodeAsWrittenAscii(s: seq<byte>)
    requires forall k :: 0 <= k < |s| ==> s[k] < 0x80
    ensures EncodeAsWritten(s) == Encode(s)
    ensures Decode(EncodeAsWritten(s), false) == s
  {
    if s != [] {
      EncodeAsWrittenAscii(s[1..]);
    }
    DecodeEncode(s);
  }

  /** Every byte of 0x80 or more is written as "%FF", so the encoding of a
      UTF-8 name does not decode back: "é" (C3 A9) becomes "%FF%FF". */
  lemma EncodeHighByteLost()
    ensures EncodeAsWritten([0xC3, 0xA9]) == [Percent, 0x46, 0x46, Percent, 0x46, 0x46]
    ensures Decode(EncodeAsWritten([0xC3, 0xA9]), false) == [0xFF, 0xFF]
  {
    var e: seq<byte> := [Percent, 0x46, 0x46, Percent, 0x46, 0x46];
    assert EncodeAsWritten([0xC3, 0xA9]) == e;
    assert e[3..][3..] == [];
    assert Decode(e[3..], false) == [0xFF];
  }

  lemma AppendAssoc<T>(a: seq<T>, b: seq<T>, c: seq<T>)
    ensures a + (b + c) == a + b + c
  {
  }

  lemma EncodeStep(s: seq<byte>, i: nat)
    requires i < |s|
    ensures EncodeAsWritten(s[i..]) == EncodeByteAsWritten(s[i]) + EncodeAsWritten(s[i + 1..])
  {
    assert s[i..][1..] == s[i + 1..];
  }

  /** One pass of percent_encode's loop: the bytes for c at dst[o..]. */
  method PutEncoded(dst: array<byte>, o: nat, c: byte) returns (n: nat)
    requires o + |EncodeByteAsWritten(c)| <= dst.Length
    modifies dst
    ensures n == |EncodeByteAsWritten(c)|
    ensures dst[..o + n] == old(dst[..o]) + EncodeByteAsWritten(c)
    ensures forall k :: o + n <= k < dst.Length ==> dst[k] == old(dst[k])
  {
    if Kept(c) {
      dst[o] := c;
      return 1;
    }
    dst[o] := Percent;
    if c < 0x80 {
      dst[o + 1] := HexUpper(c / 16);
      dst[o + 2] := HexUpper(c % 16);
    } else {
      dst[o + 1] := 0x46;
      dst[o + 2] := 0x46;
    }
    return 3;
  }

  /** percent_encode(src, dst), as written. */
  method PercentEncode(s: seq<byte>, dst: array<byte>)
    requires dst.Length > |EncodeAsWritten(s)|
    modifies dst
    ensures dst[..|EncodeAsWritten(s)|] == EncodeAsWritten(s)
    ensures dst[|EncodeAsWritten(s)|] == 0
    ensures dst[|EncodeAsWritten(s)| + 1..] == old(dst[|EncodeAsWritten(s)| + 1..])
  {
    ghost var e := EncodeAsWritten(s);
    var i, o := 0, 0;
    ghost var done: seq<byte> := [];
    while i < |s|
      invariant 0 <= i <= |s|
      invariant o == |done| && done + EncodeAsWritten(s[i..]) == e
      invariant dst[..o] == done
      invariant forall k :: |e| <= k < dst.Length ==> dst[k] == old(dst[k])
    {
      ghost var piece := EncodeByteAsWritten(s[i]);
      EncodeStep(s, i);
      AppendAssoc(done, piece, EncodeAsWritten(s[i + 1..]));
      var n := PutEncoded(dst, o, s[i]);
      done := done + piece;
      o := o + n;
      i := i + 1;
    }
    dst[o] := 0;
  }
}
