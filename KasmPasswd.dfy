/** The KasmVNC password file: one `user:password:perms` line per user,
    where perms holds the letters r (read), w (write) and o (owner). A file
    is modelled by its text, `None` when it does not exist; the records are
    the entries of `struct kasmpasswd_t`, whose user and password fields
    are 128-byte C strings. */
module KasmPasswd {
  import opened Wrappers
  import opened WuString

  /** The size of the user and password fields, terminating NUL included
      (USERNAME_LEN and PASSWORD_LEN). */
  const FieldSize: nat := 128

  datatype Entry = Entry(user: string, password: string, read: bool, write: bool, owner: bool)

  /** Both strings fit their fields with the terminating NUL. */
  predicate Fits(e: Entry)
  {
    |e.user| + 1 <= FieldSize && |e.password| + 1 <= FieldSize
  }

  /** The strings of an entry hold no character the line format uses. */
  predicate Clean(e: Entry)
  {
    ':' !in e.user && '\n' !in e.user && ':' !in e.password && '\n' !in e.password
  }

  // ---- reading ----

  /** The lines fgets returns, without their newlines; a last line without
      a newline counts too. */
  function Lines(text: string): (r: seq<string>)
    ensures forall k :: 0 <= k < |r| ==> '\n' !in r[k]
    decreases |text|
  {
    if text == [] then []
    else
      var i := FirstIndex(text, '\n');
      if i == -1 then [text] else [text[..i]] + Lines(text[i + 1..])
  }

  /** One line: the user runs to the first ':', the password to the next
      ':', and the rest grants each permission whose letter it contains.
      A line without two ':' or with a field too long for its buffer is
      skipped. */
  function ParseLine(line: string): (r: Option<Entry>)
    ensures r.Some? ==> Fits(r.value) && ':' !in r.value.user && ':' !in r.value.password
    ensures FirstIndex(line, ':') == -1 ==> r.None?
  {
    var c1 := FirstIndex(line, ':');
    if c1 == -1 then None
    else
      var user := line[..c1];
      var rest := line[c1 + 1..];
      var c2 := FirstIndex(rest, ':');
      if c2 == -1 then None
      else
        var password := rest[..c2];
        var perms := rest[c2 + 1..];
        if |user| + 1 > FieldSize || |password| + 1 > FieldSize then None
        else Some(Entry(user, password, 'r' in perms, 'w' in perms, 'o' in perms))
  }

  /** The entries of the accepted lines, in file order. */
  function ParseLines(lines: seq<string>): (r: seq<Entry>)
    ensures |r| <= |lines|
    ensures forall k :: 0 <= k < |r| ==> Fits(r[k])
  {
    if lines == [] then []
    else
      var rest := ParseLines(lines[1..]);
      match ParseLine(lines[0])
      case None => rest
      case Some(e) => [e] + rest
  }

  /** The entry set readkasmpasswd returns for a file. */
  function Parse(file: Option<string>): seq<Entry>
  {
    if file.None? then [] else ParseLines(Lines(file.value))
  }

  /** readkasmpasswd: a missing file gives the empty set; otherwise each
      accepted line adds one entry and `num` counts only those. */
  method ReadKasmPasswd(file: Option<string>) returns (entries: seq<Entry>)
    ensures entries == Parse(file)
    ensures file.None? ==> entries == []
    ensures forall k :: 0 <= k < |entries| ==> Fits(entries[k])
  {
    if file.None? {
      return [];
    }
    var lines := Lines(file.value);
    var cur := 0;
    entries := [];
    while cur < |lines|
      invariant 0 <= cur <= |lines|
      invariant entries + ParseLines(lines[cur..]) == ParseLines(lines)
    {
      assert lines[cur..][1..] == lines[cur + 1..];
      var e := ParseLine(lines[cur]);
      if e.Some? {
        entries := entries + [e.value];
      }
      cur := cur + 1;
    }
    assert lines[cur..] == [];
  }

  // ---- writing ----

  /** The perms letters of an entry, in the order r, w, o. */
  function Perms(e: Entry): string
  {
    (if e.read then "r" else "") + (if e.write then "w" else "") + (if e.owner then "o" else "")
  }

  /** The line writekasmpasswd prints for an entry, without its newline. */
  function FormatLine(e: Entry): string
  {
    e.user + ":" + e.password + ":" + Perms(e)
  }

  /** The text of the lines of all entries with a non-empty user. */
  function Render(entries: seq<Entry>): string
  {
    if entries == [] then []
    else (if entries[0].user != [] then FormatLine(entries[0]) + "\n" else []) + Render(entries[1..])
  }

  /** The entries with a non-empty user, in order. */
  function Named(entries: seq<Entry>): (r: seq<Entry>)
    ensures |r| <= |entries|
  {
    if entries == [] then []
    else (if entries[0].user != [] then [entries[0]] else []) + Named(entries[1..])
  }

  /** writekasmpasswd: an empty set leaves the file as it is (None);
      otherwise the file becomes one line per entry with a non-empty user. */
  method WriteKasmPasswd(entries: seq<Entry>) returns (file: Option<string>)
    ensures entries == [] ==> file.None?
    ensures entries != [] ==> file == Some(Render(entries))
  {
    if entries == [] {
      return None;
    }
    var out: string := [];
    var i := 0;
    while i < |entries|
      invariant 0 <= i <= |entries|
      invariant out + Render(entries[i..]) == Render(entries)
    {
      RenderStep(entries, i, out);
      if entries[i].user != [] {
        out := out + (FormatLine(entries[i]) + "\n");
      }
      i := i + 1;
    }
    assert entries[i..] == [];
    assert out + [] == out;
    return Some(out);
  }

  /** One more entry rendered: its line, if it has a user, moves from the
      rest to the text written so far. */
  lemma RenderStep(entries: seq<Entry>, i: nat, out: string)
    requires i < |entries|
    ensures var next := if entries[i].user != [] then out + (FormatLine(entries[i]) + "\n") else out;
      out + Render(entries[i..]) == next + Render(entries[i + 1..])
  {
    assert entries[i..][1..] == entries[i + 1..];
  }

  /** The file after a write of entries over old contents. */
  function Written(old_: Option<string>, entries: seq<Entry>): Option<string>
  {
    if entries == [] then old_ else Some(Render(entries))
  }

  // ---- the round trip ----

  lemma PermsLetters(e: Entry)
    ensures ':' !in Perms(e) && '\n' !in Perms(e)
    ensures ('r' in Perms(e)) == e.read && ('w' in Perms(e)) == e.write && ('o' in Perms(e)) == e.owner
  {
  }

  lemma FirstIndexAfter<T>(a: seq<T>, x: T, b: seq<T>)
    requires x !in a
    ensures FirstIndex(a + [x] + b, x) == |a|
  {
    var s := a + [x] + b;
    assert s[..|a|] == a;
    FirstFoundAt(s, x, |a|);
  }

  /** A line whose user and password hold no ':' splits into them. */
  lemma ParseLineOf(u: string, p: string, q: string)
    requires ':' !in u && ':' !in p
    requires |u| + 1 <= FieldSize && |p| + 1 <= FieldSize
    ensures ParseLine(u + [':'] + (p + [':'] + q)) == Some(Entry(u, p, 'r' in q, 'w' in q, 'o' in q))
  {
    var rest := p + [':'] + q;
    var line := u + [':'] + rest;
    FirstIndexAfter(u, ':', rest);
    FirstIndexAfter(p, ':', q);
    assert line[..|u|] == u;
    assert line[|u| + 1..] == rest;
    assert rest[..|p|] == p;
    assert rest[|p| + 1..] == q;
  }

  /** A formatted line reads back as the entry. */
  lemma ParseFormatLine(e: Entry)
    requires Fits(e) && Clean(e)
    ensures ParseLine(FormatLine(e)) == Some(e)
  {
    PermsLetters(e);
    assert FormatLine(e) == e.user + [':'] + (e.password + [':'] + Perms(e));
    ParseLineOf(e.user, e.password, Perms(e));
  }

  /** A line and its newline are split off the front of a text. */
  lemma LinesCons(line: string, rest: string)
    requires '\n' !in line
    ensures Lines(line + "\n" + rest) == [line] + Lines(rest)
  {
    var t := line + "\n" + rest;
    FirstIndexAfter(line, '\n', rest);
    assert t[..|line|] == line;
    assert t[|line| + 1..] == rest;
  }

  lemma FormatLineNoBreak(e: Entry)
    requires Clean(e)
    ensures '\n' !in FormatLine(e)
  {
    PermsLetters(e);
  }

  /** Reading what writekasmpasswd wrote gives back the entries with a
      non-empty user, in order, when no user or password holds ':' or a
      newline. */
  lemma {:induction false} ReadRendered(entries: seq<Entry>)
    requires forall k :: 0 <= k < |entries| ==> Fits(entries[k]) && Clean(entries[k])
    ensures ParseLines(Lines(Render(entries))) == Named(entries)
  {
    if entries != [] {
      var e := entries[0];
      var tail := entries[1..];
      assert forall k :: 0 <= k < |tail| ==> tail[k] == entries[k + 1];
      ReadRendered(tail);
      if e.user != [] {
        var line := FormatLine(e);
        FormatLineNoBreak(e);
        LinesCons(line, Render(tail));
        ParseFormatLine(e);
        var ls := [line] + Lines(Render(tail));
        assert ls[1..] == Lines(Render(tail));
        calc {
          ParseLines(Lines(Render(entries)));
          ParseLines(ls);
          [e] + ParseLines(Lines(Render(tail)));
        }
      } else {
        assert Render(entries) == Render(tail);
      }
    }
  }

  /** The same round trip through the write and the read operations. */
  lemma WriteThenRead(entries: seq<Entry>)
    requires entries != []
    requires forall k :: 0 <= k < |entries| ==> Fits(entries[k]) && Clean(entries[k])
    ensures Parse(Written(None, entries)) == Named(entries)
  {
    ReadRendered(entries);
  }

  /** An entry read from a file always has a line of its own: user and
      password hold no ':' and no newline. */
  lemma {:induction false} ParsedClean(lines: seq<string>)
    requires forall k :: 0 <= k < |lines| ==> '\n' !in lines[k]
    ensures forall k :: 0 <= k < |ParseLines(lines)| ==> Clean(ParseLines(lines)[k])
  {
    if lines != [] {
      ParsedClean(lines[1..]);
      ParseLineClean(lines[0]);
    }
  }

  lemma ParseLineClean(line: string)
    requires '\n' !in line
    ensures ParseLine(line).Some? ==> Clean(ParseLine(line).value)
  {
    var c1 := FirstIndex(line, ':');
    if c1 != -1 {
      var rest := line[c1 + 1..];
      var c2 := FirstIndex(rest, ':');
      NotInSlice(line, '\n', 0, c1);
      NotInSlice(line, '\n', c1 + 1, |line|);
      assert line[0..c1] == line[..c1] && line[c1 + 1..|line|] == rest;
      if c2 != -1 {
        NotInSlice(rest, '\n', 0, c2);
        assert rest[0..c2] == rest[..c2];
      }
    }
  }

  lemma NotInSlice<T>(s: seq<T>, x: T, i: nat, j: nat)
    requires x !in s && i <= j <= |s|
    ensures x !in s[i..j]
  {
  }

  /** Rewriting a file that was read keeps every well-formed line: reading
      the written file gives the same entries back, less those with an
      empty user. */
  lemma ReadWriteRead(file: Option<string>)
    requires Parse(file) != []
    ensures Parse(Written(file, Parse(file))) == Named(Parse(file))
  {
    ParsedClean(Lines(file.value));
    ReadRendered(Parse(file));
  }

  // ---- looking up a user ----

  /** The user names of the entries. */
  function Users(entries: seq<Entry>): (r: seq<string>)
    ensures |r| == |entries| && forall k :: 0 <= k < |entries| ==> r[k] == entries[k].user
  {
    seq(|entries|, k requires 0 <= k < |entries| => entries[k].user)
  }

  /** The `for (s = 0; s < set->num; s++) if (!strcmp(...)) break;` scan:
      the index of the first entry named name, or -1. */
  method FindUser(entries: seq<Entry>, name: string) returns (i: int)
    ensures i == FirstIndex(Users(entries), name)
    ensures -1 <= i < |entries|
    ensures i >= 0 ==> entries[i].user == name && forall k :: 0 <= k < i ==> entries[k].user != name
    ensures i == -1 ==> forall k :: 0 <= k < |entries| ==> entries[k].user != name
  {
    ghost var users := Users(entries);
    var s := 0;
    while s < |entries|
      invariant 0 <= s <= |entries|
      invariant name !in users[..s]
    {
      if entries[s].user == name {
        FirstFoundAt(users, name, s);
        return s;
      }
      assert users[..s + 1] == users[..s] + [users[s]];
      s := s + 1;
    }
    assert users[..s] == users;
    return -1;
  }

  // ---- edits shared by kasmvncpasswd and the web API ----

  /** Deletion: the user of entry i is blanked, so the entry is not
      written back. */
  function Blank(entries: seq<Entry>, i: nat): seq<Entry>
    requires i < |entries|
  {
    entries[i := entries[i].(user := [])]
  }

  /** Entry i, or a new last entry when i is -1, becomes e. */
  function Upsert(entries: seq<Entry>, i: int, e: Entry): (r: seq<Entry>)
    requires -1 <= i < |entries|
    ensures i == -1 ==> r == entries + [e]
    ensures i >= 0 ==> |r| == |entries| && r[i] == e && forall k :: 0 <= k < |r| && k != i ==> r[k] == entries[k]
  {
    if i == -1 then entries + [e] else entries[i := e]
  }

  /** Blanking entry i drops it from what is written back and keeps every
      other named entry, in order. */
  lemma {:induction false} BlankDrops(entries: seq<Entry>, i: nat)
    requires i < |entries|
    ensures Named(Blank(entries, i)) == Named(entries[..i]) + Named(entries[i + 1..])
  {
    var b := Blank(entries, i);
    assert b == entries[..i] + [b[i]] + entries[i + 1..];
    NamedAppend(entries[..i] + [b[i]], entries[i + 1..]);
    NamedAppend(entries[..i], [b[i]]);
    assert Named([b[i]]) == [];
  }

  lemma {:induction false} NamedAppend(a: seq<Entry>, b: seq<Entry>)
    ensures Named(a + b) == Named(a) + Named(b)
  {
    if a != [] {
      assert (a + b)[1..] == a[1..] + b;
      NamedAppend(a[1..], b);
    } else {
      assert a + b == b;
    }
  }

  /** A user that was not in the file, added as the last entry, is read
      back last, after the file's other named entries. */
  lemma AddedLast(file: Option<string>, e: Entry)
    requires FirstIndex(Users(Parse(file)), e.user) == -1
    requires Fits(e) && Clean(e) && e.user != []
    ensures Parse(Some(Render(Upsert(Parse(file), -1, e)))) == Named(Parse(file)) + [e]
  {
    var entries := Parse(file);
    if file.Some? {
      ParsedClean(Lines(file.value));
    }
    ReadRendered(entries + [e]);
    NamedAppend(entries, [e]);
  }
}
