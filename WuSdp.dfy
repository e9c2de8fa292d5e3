/** The SDP side of the WebRTC signalling of the data-channel server: the
    scanner that pulls the ICE credentials and the media id out of a
    browser's offer, and the failure conditions of the answer writer. */
module WuSdp {
  import opened Wrappers
  import opened WuString
  import WuArena

  // ---- data model ----

  /** The three ICE attributes of an offer. An IceField is the value bytes;
      an absent field has length zero, as after the initial memset. */
  datatype IceFields = IceFields(ufrag: seq<char>, password: seq<char>, mid: seq<char>)

  const NoFields := IceFields([], [], [])

  /** ValidField for all three fields. */
  predicate Complete(f: IceFields)
  {
    |f.ufrag| > 0 && |f.password| > 0 && |f.mid| > 0
  }

  // ---- BeginsWith ----

  predicate HasPrefix(s: seq<char>, prefix: seq<char>)
  {
    |prefix| <= |s| && s[..|prefix|] == prefix
  }

  /** BeginsWith: false when the prefix is longer than s, else compares
      element by element. */
  method BeginsWith(s: seq<char>, prefix: seq<char>) returns (r: bool)
    ensures r <==> HasPrefix(s, prefix)
  {
    if |prefix| > |s| {
      return false;
    }
    for i := 0 to |prefix|
      invariant forall j :: 0 <= j < i ==> s[j] == prefix[j]
    {
      if s[i] != prefix[i] {
        assert s[..|prefix|][i] != prefix[i];
        return false;
      }
    }
    assert s[..|prefix|] == prefix;
    return true;
  }

  // ---- GetIceValue ----

  /** The value of an attribute "name...:value": whatever follows the first
      colon of the whole field, provided the field starts with name and the
      value is not empty. */
  function IceValue(field: seq<char>, name: seq<char>): Option<seq<char>>
  {
    if HasPrefix(field, name) then AfterColon(field) else None
  }

  /** What follows the first colon of field, when something does. */
  function AfterColon(field: seq<char>): Option<seq<char>>
  {
    var k := FirstIndex(field, ':');
    if 0 <= k && k + 1 < |field| then Some(field[k + 1..]) else None
  }

  /** A value is found exactly when the field starts with name and has a
      colon before its last character; the field is then its colon-free
      head, the colon and the non-empty value. */
  lemma IceValueSplits(field: seq<char>, name: seq<char>)
    ensures IceValue(field, name).Some? <==>
      HasPrefix(field, name) && 0 <= FirstIndex(field, ':') < |field| - 1
    ensures IceValue(field, name).Some? ==>
      var k := FirstIndex(field, ':');
      IceValue(field, name).value != [] && field[k] == ':' && ':' !in field[..k] &&
      field[k + 1..] == IceValue(field, name).value
  {
    var k := FirstIndex(field, ':');
    if HasPrefix(field, name) && 0 <= k < |field| - 1 {
      assert AfterColon(field) == Some(field[k + 1..]);
    } else if HasPrefix(field, name) {
      assert AfterColon(field) == None;
    }
  }

  /** The partner of IceValue: an attribute written as head ':' value, with
      no colon in head and a non-empty value, reads back as value. */
  lemma IceValueOfAttribute(name: seq<char>, head: seq<char>, value: seq<char>)
    requires ':' !in head && value != []
    requires HasPrefix(head + [':'] + value, name)
    ensures IceValue(head + [':'] + value, name) == Some(value)
  {
    var field := head + [':'] + value;
    assert field[..|head|] == head;
    FirstFoundAt(field, ':', |head|);
    assert field[|head| + 1..] == value;
  }

  /** GetIceValue: o is overwritten only when the field carries a value
      for name. */
  method GetIceValue(field: seq<char>, name: seq<char>, o: seq<char>) returns (found: bool, o': seq<char>)
    ensures found <==> IceValue(field, name).Some?
    ensures o' == if found then IceValue(field, name).value else o
  {
    var prefixed := BeginsWith(field, name);
    if prefixed {
      var i := 0;
      while i < |field|
        invariant 0 <= i <= |field| && ':' !in field[..i]
      {
        if field[i] == ':' {
          FirstFoundAt(field, ':', i);
          var valueBegin := i + 1;
          if valueBegin < |field| {
            return true, field[valueBegin..];
          }
          return false, o;
        }
        assert field[..i + 1] == field[..i] + [field[i]];
        i := i + 1;
      }
      assert field[..i] == field;
    }
    return false, o;
  }

  // ---- ParseSdpField ----

  function Pick(v: Option<seq<char>>, otherwise: seq<char>): seq<char>
  {
    if v.Some? then v.value else otherwise
  }

  /** The effect of one "a=" field on the three ICE fields. */
  function FieldUpdate(field: seq<char>, f: IceFields): IceFields
  {
    IceFields(Pick(IceValue(field, "ice-ufrag"), f.ufrag),
              Pick(IceValue(field, "ice-pwd"), f.password),
              Pick(IceValue(field, "mid"), f.mid))
  }

  /** ParseSdpField: tries the ufrag, the password and the mid in turn. */
  method ParseSdpField(field: seq<char>, fields: IceFields) returns (r: IceFields)
    ensures r == FieldUpdate(field, fields)
  {
    var found, ufrag := GetIceValue(field, "ice-ufrag", fields.ufrag);
    var password, mid;
    found, password := GetIceValue(field, "ice-pwd", fields.password);
    found, mid := GetIceValue(field, "mid", fields.mid);
    r := IceFields(ufrag, password, mid);
  }

  // ---- ParseSdp: the scanner ----

  datatype ParseState = Ignore | Type | Eq | Field

  /** The scanner between two characters. taken lists the fields handed to
      ParseSdpField so far, in order; Refused once an 'a' at the start of a
      line is not followed by '='. */
  datatype Scanner =
    | Running(state: ParseState, begin: nat, length: nat, taken: seq<seq<char>>)
    | Refused(taken: seq<seq<char>>)

  /** The scanner's reaction to sdp[i]. In the field state the field being
      collected is sdp[begin..begin + length], which ends right before i. */
  function Step(sdp: seq<char>, i: nat, m: Scanner): Scanner
    requires i < |sdp|
    requires m.Running? && m.state == Field ==> m.begin + m.length == i
  {
    if m.Refused? then m
    else
      var c := sdp[i];
      match m.state
      case Type => if c == 'a' then m.(state := Eq) else m.(state := Ignore)
      case Eq => if c == '=' then Running(Field, i + 1, 0, m.taken) else Refused(m.taken)
      case Field =>
        if c == '\n' then
          Running(Type, m.begin, 0, m.taken + [sdp[m.begin..m.begin + m.length]])
        else if c == '\r' then
          Running(Ignore, m.begin, 0, m.taken + [sdp[m.begin..m.begin + m.length]])
        else m.(length := m.length + 1)
      case Ignore => if c == '\n' then m.(state := Type) else m
  }

  /** The scanner after the first n characters. */
  function Run(sdp: seq<char>, n: nat): (m: Scanner)
    requires n <= |sdp|
    ensures m.Running? && m.state == Field ==> m.begin + m.length == n
    ensures m.Running? && m.state != Field ==> m.length == 0
  {
    if n == 0 then Running(Type, 0, 0, [])
    else Step(sdp, n - 1, Run(sdp, n - 1))
  }

  /** The ICE fields after ParseSdpField has seen the given fields in turn. */
  function Fields(taken: seq<seq<char>>): IceFields
  {
    if taken == [] then NoFields
    else FieldUpdate(taken[|taken| - 1], Fields(taken[..|taken| - 1]))
  }

  lemma FieldsSnoc(taken: seq<seq<char>>, field: seq<char>)
    ensures Fields(taken + [field]) == FieldUpdate(field, Fields(taken))
  {
    assert (taken + [field])[..|taken|] == taken;
  }

  /** What ParseSdp returns and leaves in its fields. */
  function SdpParse(sdp: seq<char>): (bool, IceFields)
  {
    var m := Run(sdp, |sdp|);
    var fields := Fields(m.taken);
    if m.Refused? then (false, fields) else (Complete(fields), fields)
  }

  /** ParseSdp: the character loop of the offer scanner. */
  method ParseSdp(sdp: seq<char>) returns (ok: bool, fields: IceFields)
    ensures (ok, fields) == SdpParse(sdp)
    ensures ok ==> Complete(fields)
  {
    fields := NoFields;
    ghost var taken: seq<seq<char>> := [];
    var state := Type;
    var begin: nat := 0;
    var length: nat := 0;
    for i := 0 to |sdp|
      invariant Run(sdp, i) == Running(state, begin, length, taken)
      invariant fields == Fields(taken)
    {
      var c := sdp[i];
      if state == Type {
        TypeStep(sdp, i, begin, taken);
        if c == 'a' {
          state := Eq;
        } else {
          state := Ignore;
        }
      } else if state == Eq {
        EqStep(sdp, i, begin, taken);
        if c == '=' {
          state := Field;
          begin := i + 1;
          length := 0;
        } else {
          RefusedStays(sdp, i + 1, |sdp|);
          return false, fields;
        }
      } else if state == Field {
        FieldStep(sdp, i, begin, length, taken);
        if c == '\n' {
          fields := ParseSdpField(sdp[begin..begin + length], fields);
          FieldsSnoc(taken, sdp[begin..begin + length]);
          taken := taken + [sdp[begin..begin + length]];
          length := 0;
          state := Type;
        } else if c == '\r' {
          state := Ignore;
          fields := ParseSdpField(sdp[begin..begin + length], fields);
          FieldsSnoc(taken, sdp[begin..begin + length]);
          taken := taken + [sdp[begin..begin + length]];
          length := 0;
        } else {
          length := length + 1;
        }
      } else {
        IgnoreStep(sdp, i, begin, taken);
        if c == '\n' {
          state := Type;
        }
      }
    }
    ok := |fields.ufrag| > 0 && |fields.password| > 0 && |fields.mid| > 0;
  }

  /** Once refused, the scanner stays refused to the end. */
  lemma {:induction false} RefusedStays(sdp: seq<char>, i: nat, n: nat)
    requires i <= n <= |sdp| && Run(sdp, i).Refused?
    ensures Run(sdp, n) == Run(sdp, i)
    decreases n - i
  {
    if i < n {
      RefusedStays(sdp, i + 1, n);
    }
  }

  /** The step from the start of a line. */
  lemma TypeStep(sdp: seq<char>, i: nat, b: nat, t: seq<seq<char>>)
    requires i < |sdp| && Run(sdp, i) == Running(Type, b, 0, t)
    ensures Run(sdp, i + 1) == if sdp[i] == 'a' then Running(Eq, b, 0, t) else Running(Ignore, b, 0, t)
  {
  }

  /** The step after an 'a' at the start of a line. */
  lemma EqStep(sdp: seq<char>, i: nat, b: nat, t: seq<seq<char>>)
    requires i < |sdp| && Run(sdp, i) == Running(Eq, b, 0, t)
    ensures Run(sdp, i + 1) == if sdp[i] == '=' then Running(Field, i + 1, 0, t) else Refused(t)
  {
  }

  /** The step inside a field sdp[b..i]: an LF or a CR ends it. */
  lemma FieldStep(sdp: seq<char>, i: nat, b: nat, len: nat, t: seq<seq<char>>)
    requires i < |sdp| && b + len == i && Run(sdp, i) == Running(Field, b, len, t)
    ensures Run(sdp, i + 1) ==
      if sdp[i] == '\n' then Running(Type, b, 0, t + [sdp[b..b + len]])
      else if sdp[i] == '\r' then Running(Ignore, b, 0, t + [sdp[b..b + len]])
      else Running(Field, b, len + 1, t)
  {
  }

  /** The step inside an ignored line: LF starts the next line. */
  lemma IgnoreStep(sdp: seq<char>, i: nat, b: nat, t: seq<seq<char>>)
    requires i < |sdp| && Run(sdp, i) == Running(Ignore, b, 0, t)
    ensures Run(sdp, i + 1) == if sdp[i] == '\n' then Running(Type, b, 0, t) else Running(Ignore, b, 0, t)
  {
  }

  /** Inside an ignored line every character but LF leaves the scanner be. */
  lemma {:induction false} IgnoreRun(sdp: seq<char>, p: nat, q: nat)
    requires p <= q <= |sdp|
    requires Run(sdp, p).Running? && Run(sdp, p).state == Ignore
    requires forall k :: p <= k < q ==> sdp[k] != '\n'
    ensures Run(sdp, q) == Run(sdp, p)
    decreases q - p
  {
    if p < q {
      IgnoreRun(sdp, p, q - 1);
    }
  }

  /** Inside a field every character but CR and LF extends the field. */
  lemma {:induction false} FieldRun(sdp: seq<char>, p: nat, q: nat, t: seq<seq<char>>)
    requires p <= q <= |sdp|
    requires Run(sdp, p) == Running(Field, p, 0, t)
    requires forall k :: p <= k < q ==> sdp[k] != '\n' && sdp[k] != '\r'
    ensures Run(sdp, q) == Running(Field, p, q - p, t)
    decreases q - p
  {
    if p < q {
      FieldRun(sdp, p, q - 1, t);
    }
  }

  /** A whole field sdp[s..e] ended by CR LF. */
  lemma FieldLine(sdp: seq<char>, s: nat, e: nat, t: seq<seq<char>>)
    requires s <= e && e + 2 <= |sdp|
    requires Run(sdp, s) == Running(Field, s, 0, t)
    requires forall k :: s <= k < e ==> sdp[k] != '\n' && sdp[k] != '\r'
    requires sdp[e] == '\r' && sdp[e + 1] == '\n'
    ensures Run(sdp, e + 2) == Running(Type, s, 0, t + [sdp[s..e]])
  {
    var len := e - s;
    FieldRun(sdp, s, e, t);
    FieldStep(sdp, e, s, len, t);
    assert sdp[s..s + len] == sdp[s..e];
    IgnoreStep(sdp, e + 1, s, t + [sdp[s..e]]);
  }

  // ---- the line view ----

  /** A line of the offer without its terminator. */
  predicate NoBreak(line: seq<char>)
  {
    '\r' !in line && '\n' !in line
  }

  /** The lines joined, each ended by CR LF. */
  function JoinLines(lines: seq<seq<char>>): seq<char>
  {
    if lines == [] then []
    else JoinLines(lines[..|lines| - 1]) + lines[|lines| - 1] + ['\r', '\n']
  }

  /** The effect of one line on the fields taken so far: lines not
      starting with 'a' are skipped, an 'a' without '=' refuses the offer,
      and an "a=" line contributes what follows the "a=". */
  function LineEffect(line: seq<char>, t: seq<seq<char>>): Option<seq<seq<char>>>
  {
    if line == [] || line[0] != 'a' then Some(t)
    else if |line| < 2 || line[1] != '=' then None
    else Some(t + [line[2..]])
  }

  /** The reference reading of an offer made of lines: the fields of its
      "a=" lines in order, or None when it is refused. */
  function LinesTaken(lines: seq<seq<char>>): Option<seq<seq<char>>>
  {
    if lines == [] then Some([])
    else
      var prior := LinesTaken(lines[..|lines| - 1]);
      if prior.None? then None else LineEffect(lines[|lines| - 1], prior.value)
  }

  /** The scanner at the start of a line agrees with the fields taken. */
  predicate AtLineStart(m: Scanner, r: Option<seq<seq<char>>>)
  {
    (r.None? ==> m.Refused?) &&
    (r.Some? ==> m.Running? && m.state == Type && m.length == 0 && m.taken == r.value)
  }

  /** The characters of a line sitting at p in sdp, and its CR LF. */
  lemma LineChars(sdp: seq<char>, p: nat, line: seq<char>)
    requires NoBreak(line) && p + |line| + 2 <= |sdp|
    requires sdp[p..p + |line| + 2] == line + ['\r', '\n']
    ensures forall k :: p <= k < p + |line| ==> sdp[k] != '\n' && sdp[k] != '\r'
    ensures forall k :: p <= k < p + |line| ==> sdp[k] == line[k - p]
    ensures sdp[p + |line|] == '\r' && sdp[p + |line| + 1] == '\n'
  {
    var e := p + |line| + 2;
    forall k | p <= k < p + |line|
      ensures sdp[k] == line[k - p]
    {
      assert sdp[k] == sdp[p..e][k - p];
    }
    assert sdp[p + |line|] == sdp[p..e][|line|];
    assert sdp[p + |line| + 1] == sdp[p..e][|line| + 1];
  }

  /** A line not starting with 'a' is skipped up to its LF. */
  lemma LineSkipped(sdp: seq<char>, p: nat, line: seq<char>, b: nat, t: seq<seq<char>>)
    requires NoBreak(line) && p + |line| + 2 <= |sdp|
    requires sdp[p..p + |line| + 2] == line + ['\r', '\n']
    requires Run(sdp, p) == Running(Type, b, 0, t)
    requires line == [] || line[0] != 'a'
    ensures Run(sdp, p + |line| + 2) == Running(Type, b, 0, t)
  {
    LineChars(sdp, p, line);
    TypeStep(sdp, p, b, t);
    IgnoreRun(sdp, p + 1, p + |line| + 1);
  }

  /** An "a=" line is collected up to its CR and taken there. */
  lemma LineTaken(sdp: seq<char>, p: nat, line: seq<char>, b: nat, t: seq<seq<char>>)
    requires NoBreak(line) && p + |line| + 2 <= |sdp|
    requires sdp[p..p + |line| + 2] == line + ['\r', '\n']
    requires Run(sdp, p) == Running(Type, b, 0, t)
    requires |line| >= 2 && line[0] == 'a' && line[1] == '='
    ensures Run(sdp, p + |line| + 2) == Running(Type, p + 2, 0, t + [line[2..]])
  {
    var q := p + |line|;
    var s := p + 2;
    LineChars(sdp, p, line);
    TypeStep(sdp, p, b, t);
    EqStep(sdp, p + 1, b, t);
    FieldLine(sdp, s, q, t);
    assert sdp[s..q] == line[2..] by {
      assert sdp[s..q] == sdp[p..q + 2][2..|line|];
    }
  }

  /** One CR LF terminated line, scanned from the start of the line. */
  lemma LineRun(sdp: seq<char>, p: nat, line: seq<char>, b: nat, t: seq<seq<char>>)
    requires NoBreak(line) && p + |line| + 2 <= |sdp|
    requires sdp[p..p + |line| + 2] == line + ['\r', '\n']
    requires Run(sdp, p) == Running(Type, b, 0, t)
    ensures AtLineStart(Run(sdp, p + |line| + 2), LineEffect(line, t))
  {
    if line == [] || line[0] != 'a' {
      LineSkipped(sdp, p, line, b, t);
    } else if |line| < 2 || line[1] != '=' {
      LineChars(sdp, p, line);
      TypeStep(sdp, p, b, t);
      EqStep(sdp, p + 1, b, t);
      RefusedStays(sdp, p + 2, p + |line| + 2);
    } else {
      LineTaken(sdp, p, line, b, t);
    }
  }

  /** The scanner of a prefix depends on the prefix only. */
  lemma {:induction false} RunPrefix(s: seq<char>, t: seq<char>, n: nat)
    requires n <= |s| && n <= |t| && s[..n] == t[..n]
    ensures Run(s, n) == Run(t, n)
  {
    if n > 0 {
      assert s[..n - 1] == s[..n][..n - 1] == t[..n][..n - 1] == t[..n - 1];
      RunPrefix(s, t, n - 1);
      assert s[n - 1] == s[..n][n - 1];
      var m := Run(s, n - 1);
      if m.Running? && m.state == Field {
        assert s[m.begin..m.begin + m.length] == s[..n][m.begin..m.begin + m.length];
        assert t[m.begin..m.begin + m.length] == t[..n][m.begin..m.begin + m.length];
      }
    }
  }

  /** The scanner reads an offer of CR LF terminated lines line by line. */
  lemma {:induction false} ScanLines(lines: seq<seq<char>>)
    requires forall k :: 0 <= k < |lines| ==> NoBreak(lines[k])
    ensures AtLineStart(Run(JoinLines(lines), |JoinLines(lines)|), LinesTaken(lines))
  {
    if lines != [] {
      var init := lines[..|lines| - 1];
      ScanLines(init);
      NextLine(JoinLines(init), lines[|lines| - 1], LinesTaken(init));
    }
  }

  /** One more line after a prefix the scanner has read line by line. */
  lemma NextLine(head: seq<char>, line: seq<char>, prior: Option<seq<seq<char>>>)
    requires NoBreak(line) && AtLineStart(Run(head, |head|), prior)
    ensures AtLineStart(Run(head + line + ['\r', '\n'], |head| + |line| + 2),
                        if prior.None? then None else LineEffect(line, prior.value))
  {
    var sdp := head + line + ['\r', '\n'];
    assert sdp[..|head|] == head;
    RunPrefix(sdp, head, |head|);
    if prior.None? {
      RefusedStays(sdp, |head|, |sdp|);
    } else {
      NextLineAt(sdp, head, line, prior.value);
    }
  }

  lemma NextLineAt(sdp: seq<char>, head: seq<char>, line: seq<char>, t: seq<seq<char>>)
    requires NoBreak(line) && sdp == head + line + ['\r', '\n']
    requires Run(sdp, |head|).Running? && Run(sdp, |head|).state == Type
    requires Run(sdp, |head|).length == 0 && Run(sdp, |head|).taken == t
    ensures AtLineStart(Run(sdp, |head| + |line| + 2), LineEffect(line, t))
  {
    assert sdp[|head|..|head| + |line| + 2] == line + ['\r', '\n'];
    LineRun(sdp, |head|, line, Run(sdp, |head|).begin, t);
  }

  /** ParseSdp on an offer of CR LF terminated lines: it succeeds exactly
      when no line starts with 'a' without '=' and the "a=" lines, read in
      order, leave all three fields set; the fields are then theirs. */
  lemma ParseSdpOfLines(lines: seq<seq<char>>)
    requires forall k :: 0 <= k < |lines| ==> NoBreak(lines[k])
    ensures SdpParse(JoinLines(lines)).0 <==>
      LinesTaken(lines).Some? && Complete(Fields(LinesTaken(lines).value))
    ensures LinesTaken(lines).Some? ==> SdpParse(JoinLines(lines)).1 == Fields(LinesTaken(lines).value)
  {
    ScanLines(lines);
  }

  /** A field whose first character differs from name's has no value
      for name. */
  lemma NoValueFor(field: seq<char>, name: seq<char>)
    requires |field| > 0 && |name| > 0 && field[0] != name[0]
    ensures IceValue(field, name) == None
  {
    if |name| <= |field| {
      assert field[..|name|][0] != name[0];
    }
  }

  /** A "mid:" field sets the mid and nothing else. */
  lemma MidFieldUpdate(v: seq<char>, f: IceFields)
    requires v != []
    ensures FieldUpdate("mid" + [':'] + v, f) == f.(mid := v)
  {
    var field := "mid" + [':'] + v;
    assert field[0] == 'm';
    NoValueFor(field, "ice-ufrag");
    NoValueFor(field, "ice-pwd");
    assert field[..3] == "mid";
    IceValueOfAttribute("mid", "mid", v);
  }

  /** Appending a line applies its effect to what the earlier lines took. */
  lemma LinesTakenSnoc(lines: seq<seq<char>>, line: seq<char>)
    ensures LinesTaken(lines + [line]) ==
      if LinesTaken(lines).None? then None else LineEffect(line, LinesTaken(lines).value)
  {
    var all := lines + [line];
    assert all[..|all| - 1] == lines;
  }

  /** An "a=" line contributes its field. */
  lemma FieldLineEffect(line: seq<char>, field: seq<char>, t: seq<seq<char>>)
    requires line == ['a', '='] + field
    ensures LineEffect(line, t) == Some(t + [field])
  {
    assert line[2..] == field;
  }

  /** A later "a=mid:" line overrides whatever an earlier one set. */
  lemma LaterMidOverrides(lines: seq<seq<char>>, v: seq<char>)
    requires v != [] && LinesTaken(lines).Some?
    ensures LinesTaken(lines + ["a=mid:" + v]).Some?
    ensures Fields(LinesTaken(lines + ["a=mid:" + v]).value) == Fields(LinesTaken(lines).value).(mid := v)
  {
    var field := "mid" + [':'] + v;
    var t := LinesTaken(lines).value;
    assert "a=mid:" + v == ['a', '='] + field;
    LinesTakenSnoc(lines, "a=mid:" + v);
    FieldLineEffect("a=mid:" + v, field, t);
    FieldsSnoc(t, field);
    MidFieldUpdate(v, Fields(t));
  }

  /** A field is taken only once a CR or LF ends it: an offer whose last
      line is cut off leaves that line's value unset. */
  lemma UnterminatedFieldIgnored()
    ensures SdpParse("a=mid:0") == (false, NoFields)
  {
    var s := "a=mid:0";
    FieldRun(s, 2, 7, []);
  }

  /** A bare LF in the type position is taken as an ignored line, so the
      line after an empty LF-only line is skipped as well. */
  lemma EmptyLineHidesNext()
    ensures SdpParse("\na=mid:0\r\n") == (false, NoFields)
  {
    var s := "\na=mid:0\r\n";
    TypeStep(s, 0, 0, []);
    IgnoreRun(s, 1, 9);
    IgnoreStep(s, 9, 0, []);
  }

  /** An 'a' at the start of a line that is not followed by '=' makes the
      whole offer fail, whatever the other lines set. */
  lemma TypeWithoutEqRefuses(lines: seq<seq<char>>)
    requires forall k :: 0 <= k < |lines| ==> NoBreak(lines[k])
    requires |lines| > 0 && |lines[|lines| - 1]| >= 2
    requires lines[|lines| - 1][0] == 'a' && lines[|lines| - 1][1] != '='
    ensures !SdpParse(JoinLines(lines)).0
  {
    ScanLines(lines);
  }

  // ---- GenerateSDP ----

  const AnswerBufferSize: int := 4096

  /** The answer as stored in the arena: where its block starts and the
      text copied there. */
  datatype Answer = Answer(offset: int, text: seq<char>)

  /** GenerateSDP: text is the answer as formatted into the 4096-byte
      buffer; it is refused when empty or when it does not fit the buffer
      with its terminator, and when the arena has no room for it. */
  method GenerateSdp(arena: WuArena.Arena, text: seq<char>) returns (r: Option<Answer>)
    requires arena.Valid()
    modifies arena`length, arena`regions
    ensures arena.Valid()
    ensures r.Some? <==> 0 < |text| < AnswerBufferSize && old(arena.capacity - arena.length) >= |text|
    ensures r.Some? ==>
      r.value == Answer(old(arena.length), text) &&
      arena.regions == old(arena.regions) + [(old(arena.length), |text|)]
    ensures r.None? ==> arena.length == old(arena.length) && arena.regions == old(arena.regions)
  {
    var length := |text|;
    if length <= 0 || length >= AnswerBufferSize {
      return None;
    }
    var block := arena.Acquire(length);
    if block.None? {
      return None;
    }
    return Some(Answer(block.value, text));
  }
}
