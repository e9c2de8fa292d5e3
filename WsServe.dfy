/** Small decisions of the web server in websocket.c: the key arithmetic of
    the old Hixie-76 handshake, the MIME type of a served file, and the
    quick check of an address given by a client. */
module WsServe {
  import opened Wrappers
  import opened Bytes

  // ---- parse_hixie76_key ----

  predicate IsDigit(c: char)
  {
    '0' <= c <= '9'
  }

  /** The number of spaces in the key. */
  function Spaces(key: string): nat
  {
    if key == [] then 0 else Spaces(key[..|key| - 1]) + (if key[|key| - 1] == ' ' then 1 else 0)
  }

  /** One character of the key: a digit gives num * 10 + digit, wrapping
      modulo 2^64 as an unsigned long does. */
  function NumStep(num: u64, c: char): u64
  {
    if IsDigit(c) then ToU64(num * 10 + (c as int - '0' as int)) else num
  }

  /** The digits of the key read as one decimal number, in an unsigned
      long. */
  function Num(key: string): u64
  {
    if key == [] then 0 else NumStep(Num(key[..|key| - 1]), key[|key| - 1])
  }

  /** The same number without the wrap-around. */
  function Exact(key: string): nat
  {
    if key == [] then 0
    else
      var c := key[|key| - 1];
      if IsDigit(c) then Exact(key[..|key| - 1]) * 10 + (c as int - '0' as int)
      else Exact(key[..|key| - 1])
  }

  /** The int conversion of an unsigned long. */
  function ToInt(x: u64): (r: i32)
    ensures x < 0x8000_0000 ==> r == x
  {
    var v := x % TWO32;
    if v >= 0x8000_0000 then v - TWO32 else v
  }

  /** What parse_hixie76_key returns: the number over the count of spaces,
      converted to int; None for a key without a space, where the code
      divides by zero. */
  function Hixie76Key(key: string): Option<i32>
  {
    if Spaces(key) == 0 then None else Some(ToInt(Num(key) / Spaces(key)))
  }

  /** parse_hixie76_key(key): one pass over the key that counts the spaces
      and accumulates the digits. */
  method ParseHixie76Key(key: string) returns (r: Option<i32>)
    ensures r == Hixie76Key(key)
    ensures r.None? <==> ' ' !in key
  {
    var spaces: nat, num: u64 := 0, 0;
    for i := 0 to |key|
      invariant spaces == Spaces(key[..i]) && num == Num(key[..i])
    {
      assert key[..i + 1][..i] == key[..i];
      if key[i] == ' ' {
        spaces := spaces + 1;
      }
      num := NumStep(num, key[i]);
    }
    assert key[..|key|] == key;
    NoSpaces(key);
    if spaces == 0 {
      return None;
    }
    return Some(ToInt(num / spaces));
  }

  /** The count is 0 exactly when the key holds no space. */
  lemma {:induction false} NoSpaces(key: string)
    ensures Spaces(key) == 0 <==> ' ' !in key
  {
    if key != [] {
      NoSpaces(key[..|key| - 1]);
      assert key == key[..|key| - 1] + [key[|key| - 1]];
    }
  }

  /** The number in the key is the decimal number of its digits, modulo
      2^64. */
  lemma {:induction false} NumWraps(key: string)
    ensures Num(key) == Exact(key) % TWO64
  {
    if key != [] {
      var k := key[..|key| - 1];
      NumWraps(k);
      var c := key[|key| - 1];
      if IsDigit(c) {
        var d := c as int - '0' as int;
        var e := Exact(k);
        assert e == (e / TWO64) * TWO64 + e % TWO64;
        assert e * 10 + d == (e % TWO64) * 10 + d + (e / TWO64 * 10) * TWO64;
        DivModUnique((e % TWO64 * 10 + d) / TWO64 + e / TWO64 * 10, TWO64, (e % TWO64 * 10 + d) % TWO64);
      }
    }
  }

  /** A key as a client builds it: the digits of its number n times the
      count of spaces, with the spaces put in. For a product below 2^64 and
      a quotient below 2^31, the code gives back n. */
  lemma Hixie76KeyValue(key: string, n: nat)
    requires Spaces(key) > 0 && Exact(key) == n * Spaces(key) && Exact(key) < TWO64 && n < 0x8000_0000
    ensures Hixie76Key(key) == Some(n)
  {
    var sp := Spaces(key);
    NumWraps(key);
    assert Num(key) == n * sp by {
      DivModUnique(0, TWO64, Exact(key));
    }
    DivModUnique(n, sp, 0);
    assert Num(key) / sp == n;
  }

  // ---- name2mime ----

  function Lower(c: char): char
  {
    if 'A' <= c <= 'Z' then (c as int + 32) as char else c
  }

  /** "Downloads/" in any case at index i of the name. */
  predicate DownloadsAt(name: string, i: nat)
    requires i + 10 <= |name|
  {
    forall j :: 0 <= j < 10 ==> Lower(name[i + j]) == "downloads/"[j]
  }

  /** strcasestr(name, "Downloads/") != NULL. */
  predicate InDownloads(name: string)
  {
    exists i: nat :: i + 10 <= |name| && DownloadsAt(name, i)
  }

  /** The index of the last '.', or -1 (strrchr). */
  function LastDot(name: string): (r: int)
    ensures -1 <= r < |name|
    ensures r >= 0 ==> name[r] == '.'
    ensures forall k :: r < k < |name| ==> name[k] != '.'
  {
    if name == [] then -1
    else if name[|name| - 1] == '.' then |name| - 1
    else
      var r := LastDot(name[..|name| - 1]);
      assert name == name[..|name| - 1] + [name[|name| - 1]];
      r
  }

  /** strncmp(s, p, |p|) == 0. */
  predicate HasPrefix(s: string, p: string)
  {
    |p| <= |s| && forall i :: 0 <= i < |p| ==> s[i] == p[i]
  }

  /** The type for the text after the last '.', compared by prefix in the
      code's order. */
  function MimeOfExtension(ext: string): string
  {
    if HasPrefix(ext, "htm") then "text/html"
    else if HasPrefix(ext, "txt") then "text/plain"
    else if HasPrefix(ext, "css") then "text/css"
    else if HasPrefix(ext, "js") then "application/javascript"
    else if HasPrefix(ext, "gif") then "image/gif"
    else if HasPrefix(ext, "jpg") then "image/jpeg"
    else if HasPrefix(ext, "jpeg") then "image/jpeg"
    else if HasPrefix(ext, "png") then "image/png"
    else if HasPrefix(ext, "svg") then "image/svg+xml"
    else "application/octet-stream"
  }

  const KnownTypes := {"text/html", "text/plain", "text/css", "application/javascript", "image/gif",
                       "image/jpeg", "image/png", "image/svg+xml", "application/octet-stream"}

  /** name2mime(name): a name without '.' or anywhere under a Downloads/
      directory (in any case) is binary; otherwise the extension decides. */
  function Name2Mime(name: string): (r: string)
    ensures r in KnownTypes
    ensures '.' !in name || InDownloads(name) ==> r == "application/octet-stream"
  {
    var dot := LastDot(name);
    if dot == -1 || InDownloads(name) then "application/octet-stream"
    else MimeOfExtension(name[dot + 1..])
  }

  /** For a name base "." ext outside Downloads/ whose extension has no
      '.', the type is that of the extension; e.g. "index.html" is served
      as text/html and "a.b.png" as image/png. */
  lemma Name2MimeExtension(base: string, ext: string)
    requires '.' !in ext && !InDownloads(base + "." + ext)
    ensures Name2Mime(base + "." + ext) == MimeOfExtension(ext)
  {
    var name := base + "." + ext;
    var dot := LastDot(name);
    assert name[|base|] == '.';
    assert forall k :: |base| < k < |name| ==> name[k] == ext[k - |base| - 1];
    assert dot == |base|;
    assert name[dot + 1..] == ext;
  }

  /** The check is by prefix, so an extension that begins with a known
      one takes its type: "json" is served as JavaScript and "html" as
      HTML. */
  lemma PrefixDecides()
    ensures MimeOfExtension("json") == "application/javascript"
    ensures MimeOfExtension("html") == "text/html"
  {
    assert "json"[0] == 'j' && "json"[1] == 's';
    assert "html"[0] == 'h';
  }

  /** An extension that begins with none of the known ones is binary. */
  lemma UnknownIsBinary(ext: string)
    requires |ext| > 0 && ext[0] !in "htcgjps"
    ensures MimeOfExtension(ext) == "application/octet-stream"
  {
  }

  // ---- isValidIp ----

  /** isxdigit, '.' or ':'. */
  predicate IpChar(c: char)
  {
    '0' <= c <= '9' || 'a' <= c <= 'f' || 'A' <= c <= 'F' || c == '.' || c == ':'
  }

  /** isValidIp(str, len): every one of the first len characters is a
      hexadecimal digit, '.' or ':'. */
  method IsValidIp(str: string, len: nat) returns (r: bool)
    requires len <= |str|
    ensures r <==> forall i :: 0 <= i < len ==> IpChar(str[i])
  {
    for i := 0 to len
      invariant forall k :: 0 <= k < i ==> IpChar(str[k])
    {
      if !IpChar(str[i]) {
        return false;
      }
    }
    return true;
  }
}
