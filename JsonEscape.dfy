/** The JSON string escaping of the server's web API (section 7 of RFC 8259,
    restricted to the seven two-character escapes). A C string is modelled
    by its characters before the terminating NUL; the caller's output buffer
    is an array that receives the converted characters and a NUL. */
module JsonEscape {

  const Backspace: char := 8 as char
  const FormFeed: char := 12 as char

  /** The characters written as a backslash and a letter (or themselves). */
  predicate Special(c: char)
  {
    c == Backspace || c == FormFeed || c == '\n' || c == '\r' || c == '\t' || c == '"' || c == '\\'
  }

  /** The character after the backslash in the escape of a special one. */
  function EscapeLetter(c: char): char
    requires Special(c)
  {
    if c == Backspace then 'b'
    else if c == FormFeed then 'f'
    else if c == '\n' then 'n'
    else if c == '\r' then 'r'
    else if c == '\t' then 't'
    else c
  }

  /** The characters that may follow a backslash in an escape. */
  predicate EscapeCode(c: char)
  {
    c == 'b' || c == 'f' || c == 'n' || c == 'r' || c == 't' || c == '"' || c == '\\'
  }

  /** The character an escape "\c" stands for. */
  function Unescaped(c: char): char
    requires EscapeCode(c)
  {
    if c == 'b' then Backspace
    else if c == 'f' then FormFeed
    else if c == 'n' then '\n'
    else if c == 'r' then '\r'
    else if c == 't' then '\t'
    else c
  }

  /** What one input character becomes. */
  function EscapeChar(c: char): seq<char>
  {
    if Special(c) then ['\\', EscapeLetter(c)] else [c]
  }

  /** The escaped form of a string, character by character. */
  function Escape(s: seq<char>): seq<char>
  {
    if s == [] then [] else EscapeChar(s[0]) + Escape(s[1..])
  }

  /** The unescaping scan: a backslash followed by an escape code becomes one
      character and consumes both; anything else, a lone or final backslash
      included, is copied. */
  function Unescape(s: seq<char>): seq<char>
  {
    if s == [] then []
    else if s[0] == '\\' && |s| >= 2 && EscapeCode(s[1]) then [Unescaped(s[1])] + Unescape(s[2..])
    else [s[0]] + Unescape(s[1..])
  }

  /** The number of special characters in s. */
  function SpecialCount(s: seq<char>): nat
  {
    if s == [] then 0 else (if Special(s[0]) then 1 else 0) + SpecialCount(s[1..])
  }

  // ---- properties of the escaping ----

  lemma {:induction false} EscapeAppend(s: seq<char>, t: seq<char>)
    ensures Escape(s + t) == Escape(s) + Escape(t)
  {
    if s == [] {
      assert s + t == t;
    } else {
      assert (s + t)[1..] == s[1..] + t;
      EscapeAppend(s[1..], t);
    }
  }

  /** Escape grows the string by one character per special character. */
  lemma {:induction false} EscapeLength(s: seq<char>)
    ensures |Escape(s)| == |s| + SpecialCount(s)
  {
    if s != [] {
      EscapeLength(s[1..]);
    }
  }

  /** Each character of the escape comes from one input character: an
      ordinary one is copied, a special one becomes a backslash and its
      letter. */
  lemma EscapeCharSpec(c: char)
    ensures !Special(c) ==> EscapeChar(c) == [c]
    ensures c == Backspace ==> EscapeChar(c) == "\\b"
    ensures c == FormFeed ==> EscapeChar(c) == "\\f"
    ensures c == '\n' ==> EscapeChar(c) == "\\n"
    ensures c == '\r' ==> EscapeChar(c) == "\\r"
    ensures c == '\t' ==> EscapeChar(c) == "\\t"
    ensures c == '"' ==> EscapeChar(c) == "\\\""
    ensures c == '\\' ==> EscapeChar(c) == "\\\\"
  {
  }

  /** The escaped string holds no raw control character that JSON forbids. */
  lemma {:induction false} EscapeHasNoControls(s: seq<char>)
    ensures forall k :: 0 <= k < |Escape(s)| ==>
      Escape(s)[k] !in {Backspace, FormFeed, '\n', '\r', '\t'}
  {
    if s != [] {
      EscapeHasNoControls(s[1..]);
      var e := EscapeChar(s[0]);
      assert Escape(s) == e + Escape(s[1..]);
      forall k | 0 <= k < |Escape(s)|
        ensures Escape(s)[k] !in {Backspace, FormFeed, '\n', '\r', '\t'}
      {
        if k >= |e| {
          assert Escape(s)[k] == Escape(s[1..])[k - |e|];
        }
      }
    }
  }

  /** Unescaping undoes escaping on every string (a NUL would end the C
      string, and is not part of the model's strings). */
  lemma {:induction false} UnescapeEscape(s: seq<char>)
    ensures Unescape(Escape(s)) == s
  {
    if s != [] {
      var c := s[0];
      var rest := Escape(s[1..]);
      assert Escape(s) == EscapeChar(c) + rest;
      if Special(c) {
        assert (['\\', EscapeLetter(c)] + rest)[2..] == rest;
      } else {
        assert ([c] + rest)[1..] == rest;
      }
      UnescapeEscape(s[1..]);
    }
  }

  /** A backslash followed by something other than an escape code is copied
      and the next character is read on its own. */
  lemma UnescapeLoneBackslash(c: char, t: seq<char>)
    requires !EscapeCode(c)
    ensures Unescape(['\\', c] + t) == ['\\'] + Unescape([c] + t)
  {
    assert (['\\', c] + t)[1..] == [c] + t;
  }

  /** A recognised escape is consumed as a pair. */
  lemma UnescapePair(c: char, t: seq<char>)
    requires EscapeCode(c)
    ensures Unescape(['\\', c] + t) == [Unescaped(c)] + Unescape(t)
  {
    assert (['\\', c] + t)[2..] == t;
  }

  /** Unescaping never lengthens a string. */
  lemma {:induction false} UnescapeShrinks(s: seq<char>)
    ensures |Unescape(s)| <= |s|
  {
    if s != [] {
      if s[0] == '\\' && |s| >= 2 && EscapeCode(s[1]) {
        UnescapeShrinks(s[2..]);
      } else {
        UnescapeShrinks(s[1..]);
      }
    }
  }

  /** One step of the unescaping scan at position i, reading the NUL after
      the last character as the C loop does. */
  lemma UnescapeStep(s: seq<char>, i: nat)
    requires i < |s|
    ensures var next := if i + 1 < |s| then s[i + 1] else '\0';
      if s[i] == '\\' && EscapeCode(next)
      then i + 2 <= |s| && Unescape(s[i..]) == [Unescaped(next)] + Unescape(s[i + 2..])
      else Unescape(s[i..]) == [s[i]] + Unescape(s[i + 1..])
  {
    var next := if i + 1 < |s| then s[i + 1] else '\0';
    if s[i] == '\\' && EscapeCode(next) {
      assert s[i..][2..] == s[i + 2..];
    } else {
      assert s[i..][1..] == s[i + 1..];
    }
  }

  // ---- the two loops ----

  /** JSON_escape: writes the escape of s and a NUL into out. */
  method JsonEscape(s: seq<char>, out: array<char>)
    requires '\0' !in s
    requires out.Length > |Escape(s)|
    modifies out
    ensures out[..|Escape(s)|] == Escape(s)
    ensures out[|Escape(s)|] == '\0'
    ensures out[|Escape(s)| + 1..] == old(out[|Escape(s)| + 1..])
  {
    var i, o := 0, 0;
    ghost var done: seq<char> := [];
    while i < |s|
      invariant 0 <= i <= |s|
      invariant o == |done| && done + Escape(s[i..]) == Escape(s)
      invariant out[..o] == done
      invariant out[|Escape(s)|..] == old(out[|Escape(s)|..])
    {
      var c := s[i];
      ghost var e := EscapeChar(c);
      assert s[i..][1..] == s[i + 1..];
      assert Escape(s[i..]) == e + Escape(s[i + 1..]);
      assert done + e + Escape(s[i + 1..]) == Escape(s);
      if Special(c) {
        out[o] := '\\';
        out[o + 1] := EscapeLetter(c);
        assert out[..o + 2] == out[..o] + e;
        o := o + 2;
      } else {
        out[o] := c;
        assert out[..o + 1] == out[..o] + e;
        o := o + 1;
      }
      done := done + e;
      i := i + 1;
    }
    out[o] := '\0';
  }

  /** JSON_unescape: writes the unescaping of s and a NUL into out. */
  method JsonUnescape(s: seq<char>, out: array<char>)
    requires '\0' !in s
    requires out.Length > |Unescape(s)|
    modifies out
    ensures out[..|Unescape(s)|] == Unescape(s)
    ensures out[|Unescape(s)|] == '\0'
    ensures out[|Unescape(s)| + 1..] == old(out[|Unescape(s)| + 1..])
  {
    ghost var u := Unescape(s);
    var i, o := 0, 0;
    ghost var done: seq<char> := [];
    while i < |s|
      invariant 0 <= i <= |s|
      invariant o == |done| && done + Unescape(s[i..]) == u
      invariant out[..o] == done
      invariant forall k :: |u| <= k < out.Length ==> out[k] == old(out[k])
    {
      // in[1] reads the terminating NUL at the end of the string
      var next := if i + 1 < |s| then s[i + 1] else '\0';
      var step := if s[i] == '\\' && EscapeCode(next) then 2 else 1;
      var c := if step == 2 then Unescaped(next) else s[i];
      UnescapeStep(s, i);
      assert done + [c] + Unescape(s[i + step..]) == u;
      out[o] := c;
      assert out[..o + 1] == done + [c];
      done := done + [c];
      i := i + step;
      o := o + 1;
    }
    assert s[i..] == [];
    out[o] := '\0';
  }
}
