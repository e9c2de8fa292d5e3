/** The VNC extension of the X server: the AllowOverride list and the
    parameter overrides it admits, the DLP binary clipboard MIME types, the
    keyboard LED state handed to the desktops, and the checks of the server
    settings when the extension starts. */
module VncExtInit {
  import Bytes
  import Watermark
  import VncServerSt
  import opened Wrappers

  // ---------------------------------------------------------------------
  // Comma-separated fields
  // ---------------------------------------------------------------------

  /** The position of the first c in s, or |s| when there is none. */
  function Find(s: string, c: char): (i: nat)
    ensures i <= |s| && (i < |s| ==> s[i] == c)
    ensures forall j :: 0 <= j < i ==> s[j] != c
  {
    if |s| == 0 || s[0] == c then 0 else 1 + Find(s[1..], c)
  }

  /** A position holding c with no c before it is the first one. */
  lemma FindAt(s: string, c: char, i: nat)
    requires i <= |s| && (i < |s| ==> s[i] == c)
    requires forall j :: 0 <= j < i ==> s[j] != c
    ensures Find(s, c) == i
  {
  }

  /** The fields of s between its commas, empty ones included: what
      strsep(&str, ",") returns until it returns NULL, and the tokens the
      loop of parseOverrideList cuts. */
  function Fields(s: string): (r: seq<string>)
    ensures |r| >= 1
    decreases |s|
  {
    var i := Find(s, ',');
    if i == |s| then [s] else [s[..i]] + Fields(s[i + 1..])
  }

  /** Cutting a field off the front: the fields of u are u[..i] followed by
      the fields after the comma at i, or u alone when there is no comma. */
  lemma FieldsSplit(u: string, i: nat)
    requires i <= |u| && (i < |u| ==> u[i] == ',')
    requires forall j :: 0 <= j < i ==> u[j] != ','
    ensures i < |u| ==> Fields(u) == [u[..i]] + Fields(u[i + 1..])
    ensures i == |u| ==> Fields(u) == [u]
  {
    FindAt(u, ',', i);
  }

  predicate NoComma(t: string)
  {
    forall j :: 0 <= j < |t| ==> t[j] != ','
  }

  /** The fields joined again with commas. */
  function Join(ts: seq<string>): string
    requires |ts| >= 1
  {
    if |ts| == 1 then ts[0] else ts[0] + "," + Join(ts[1..])
  }

  /** The fields of s hold no comma, and joined with commas they give s
      back. */
  lemma {:induction false} JoinFields(s: string)
    ensures Join(Fields(s)) == s
    ensures forall k :: 0 <= k < |Fields(s)| ==> NoComma(Fields(s)[k])
    decreases |s|
  {
    var i := Find(s, ',');
    FieldsSplit(s, i);
    if i < |s| {
      var head, rest := s[..i], s[i + 1..];
      JoinFields(rest);
      var fs := Fields(s);
      assert fs[0] == head && fs[1..] == Fields(rest);
      assert Join(fs) == head + "," + rest;
      assert s == head + "," + rest;
      forall k | 0 <= k < |fs|
        ensures NoComma(fs[k])
      {
        if k > 0 {
          assert fs[k] == Fields(rest)[k - 1];
        }
      }
    }
  }

  /** Comma-free fields joined with commas split back into themselves. */
  lemma {:induction false} FieldsJoin(ts: seq<string>)
    requires |ts| >= 1 && forall k :: 0 <= k < |ts| ==> NoComma(ts[k])
    ensures Fields(Join(ts)) == ts
  {
    if |ts| == 1 {
      FieldsSplit(ts[0], |ts[0]|);
    } else {
      var t, j := ts[0], Join(ts[1..]);
      var s := Join(ts);
      assert s == t + "," + j;
      assert NoComma(t);
      FieldsSplit(s, |t|);
      assert s[..|t|] == t && s[|t| + 1..] == j;
      FieldsJoin(ts[1..]);
      assert ts == [t] + ts[1..];
    }
  }

  /** A trailing comma adds one empty field. */
  lemma {:induction false} TrailingComma(s: string)
    ensures Fields(s + ",") == Fields(s) + [""]
    decreases |s|
  {
    var u := s + ",";
    var i := Find(s, ',');
    FieldsSplit(s, i);
    FieldsSplit(u, i);
    assert u[..i] == s[..i];
    if i == |s| {
      assert u[i + 1..] == "";
      FieldsSplit("", 0);
    } else {
      assert u[i + 1..] == s[i + 1..] + ",";
      TrailingComma(s[i + 1..]);
    }
  }

  // ---------------------------------------------------------------------
  // Case-insensitive names (CaseInsensitiveCompare)
  // ---------------------------------------------------------------------

  /** tolower in the C locale. */
  function Lower(c: char): char
  {
    if 'A' <= c <= 'Z' then (c as int + 32) as char else c
  }

  function Fold(s: string): string
  {
    seq(|s|, i requires 0 <= i < |s| => Lower(s[i]))
  }

  /** The sign of a byte-wise comparison: the first difference decides,
      and a proper prefix comes first (the NUL ends the shorter one). */
  function Cmp(x: string, y: string): (r: int)
    ensures -1 <= r <= 1
  {
    if |x| == 0 && |y| == 0 then 0
    else if |x| == 0 then -1
    else if |y| == 0 then 1
    else if x[0] < y[0] then -1
    else if x[0] > y[0] then 1
    else Cmp(x[1..], y[1..])
  }

  /** The sign of strcasecmp(a, b) for strings without a NUL. */
  function CaseCmp(a: string, b: string): int
  {
    Cmp(Fold(a), Fold(b))
  }

  /** The comparison is antisymmetric and answers 0 only for equal
      strings. */
  lemma {:induction false} CmpProperties(x: string, y: string)
    ensures Cmp(x, y) == -Cmp(y, x)
    ensures Cmp(x, y) == 0 <==> x == y
  {
    if |x| > 0 && |y| > 0 && x[0] == y[0] {
      CmpProperties(x[1..], y[1..]);
      if x[1..] == y[1..] {
        assert x == [x[0]] + x[1..] && y == [y[0]] + y[1..];
      }
    }
  }

  /** Two names are the same entry of a set ordered by
      CaseInsensitiveCompare (neither comes before the other) exactly when
      they fold to the same string; the set is therefore modelled by the
      folded names. */
  lemma CaseEquivalent(a: string, b: string)
    ensures !(CaseCmp(a, b) < 0) && !(CaseCmp(b, a) < 0) <==> Fold(a) == Fold(b)
  {
    CmpProperties(Fold(a), Fold(b));
  }

  /** The set entries of the given fields. */
  function Keys(ts: seq<string>): set<string>
  {
    set k | 0 <= k < |ts| :: Fold(ts[k])
  }

  lemma KeysCons(t: string, ts: seq<string>)
    ensures Keys([t] + ts) == {Fold(t)} + Keys(ts)
  {
    var us := [t] + ts;
    forall key | key in Keys(ts)
      ensures key in Keys(us)
    {
      var k :| 0 <= k < |ts| && key == Fold(ts[k]);
      assert us[k + 1] == ts[k];
    }
    assert us[0] == t;
  }

  /** The entries parseOverrideList adds to the set for an AllowOverride
      text: the case-folded names of its fields. */
  function OverrideSet(text: string): set<string>
  {
    Keys(Fields(text))
  }

  // ---------------------------------------------------------------------
  // vncOverrideParam
  // ---------------------------------------------------------------------

  /** What vncOverrideParam answers for "name=value": 0 without an '=', or
      when the name up to the first '=' is not in the AllowOverride set;
      otherwise what setParam answers (`accepted`), as 1 or 0. */
  function OverrideParam(nameAndValue: string, allowed: set<string>, accepted: bool): (r: int)
    ensures r == 0 || r == 1
    ensures r == 1 <==> accepted && '=' in nameAndValue && Fold(nameAndValue[..Find(nameAndValue, '=')]) in allowed
  {
    var e := Find(nameAndValue, '=');
    if e == |nameAndValue| then 0
    else if Fold(nameAndValue[..e]) !in allowed then 0
    else if accepted then 1 else 0
  }

  /** An override without '=' is refused. */
  lemma OverrideNeedsEquals(nameAndValue: string, text: string, accepted: bool)
    requires forall j :: 0 <= j < |nameAndValue| ==> nameAndValue[j] != '='
    ensures OverrideParam(nameAndValue, OverrideSet(text), accepted) == 0
  {
    FindAt(nameAndValue, '=', |nameAndValue|);
  }

  /** "name=value" is set exactly when setParam accepts it and name equals
      one of the fields of the AllowOverride list, ignoring case; the value
      may itself hold '='. */
  lemma OverrideOf(name: string, value: string, text: string, accepted: bool)
    requires forall j :: 0 <= j < |name| ==> name[j] != '='
    ensures OverrideParam(name + "=" + value, OverrideSet(text), accepted) != 0 <==>
      accepted && exists k :: 0 <= k < |Fields(text)| && Fold(Fields(text)[k]) == Fold(name)
  {
    var s := name + "=" + value;
    forall j | 0 <= j < |name|
      ensures s[j] != '='
    {
      assert s[j] == name[j];
    }
    FindAt(s, '=', |name|);
    assert s[..|name|] == name;
    var ts := Fields(text);
    assert OverrideSet(text) == Keys(ts);
    assert Find(s, '=') == |name| && s[..Find(s, '=')] == name;
    assert OverrideParam(s, OverrideSet(text), accepted) != 0 <==> accepted && Fold(name) in Keys(ts);
    if exists k :: 0 <= k < |ts| && Fold(ts[k]) == Fold(name) {
      var k :| 0 <= k < |ts| && Fold(ts[k]) == Fold(name);
      assert Fold(name) in Keys(ts);
      assert Fold(Fields(text)[k]) == Fold(name);
    } else {
      assert Fold(name) !in Keys(ts);
    }
  }

  /** The AllowOverride default. */
  const DefaultAllowOverride := ["desktop", "AcceptPointerEvents", "SendCutText", "AcceptCutText", "SendPrimary", "SetPrimary"]

  /** The default list holds no comma, so its fields are its names. */
  lemma DefaultFields()
    ensures Fields(Join(DefaultAllowOverride)) == DefaultAllowOverride
  {
    var ts := DefaultAllowOverride;
    assert NoComma(ts[0]) && NoComma(ts[1]) && NoComma(ts[2]);
    assert NoComma(ts[3]) && NoComma(ts[4]) && NoComma(ts[5]);
    FieldsJoin(ts);
  }

  /** With the default list (the fields of its text, see DefaultFields),
      "Desktop=..." is handed to setParam whatever its case. */
  lemma DefaultAllowsDesktop(text: string, value: string)
    requires Fields(text) == DefaultAllowOverride
    ensures OverrideParam("DESKTOP=" + value, OverrideSet(text), true) == 1
  {
    var ts := DefaultAllowOverride;
    assert "DESKTOP=" + value == "DESKTOP" + "=" + value;
    OverrideOf("DESKTOP", value, text, true);
    assert Fold(ts[0]) == Fold("DESKTOP") by {
      assert Fold(ts[0]) == "desktop";
      assert Fold("DESKTOP") == "desktop";
    }
  }

  /** With the default list, a parameter outside it, such as rfbport, is
      refused. */
  lemma DefaultRefusesRfbport(text: string, value: string)
    requires Fields(text) == DefaultAllowOverride
    ensures OverrideParam("rfbport=" + value, OverrideSet(text), true) == 0
  {
    var ts := DefaultAllowOverride;
    assert "rfbport=" + value == "rfbport" + "=" + value;
    OverrideOf("rfbport", value, text, true);
    var r := Fold("rfbport");
    assert r[0] == 'r';
    forall k | 0 <= k < |ts|
      ensures Fold(ts[k]) != r
    {
      assert Fold(ts[k])[0] == Lower(ts[k][0]);
    }
  }

  // ---------------------------------------------------------------------
  // parseClipTypes
  // ---------------------------------------------------------------------

  /** t occurs in s (strstr). */
  predicate Contains(s: string, t: string)
    decreases |s|
  {
    |t| <= |s| && (s[..|t|] == t || (|s| > 0 && Contains(s[1..], t)))
  }

  /** What occurs in a prefix of s occurs in s. */
  lemma {:induction false} ContainsPrefix(s: string, n: nat, t: string)
    requires n <= |s| && Contains(s[..n], t)
    ensures Contains(s, t)
    decreases n
  {
    var p := s[..n];
    if p[..|t|] != t {
      assert p[1..] == s[1..][..n - 1];
      ContainsPrefix(s[1..], n - 1, t);
    } else {
      assert s[..|t|] == p[..|t|];
    }
  }

  /** The clipboard types that the plain-text clipboard already carries. */
  predicate TextType(t: string)
  {
    t == "TEXT" || t == "STRING" || Contains(t, "text/plain") || t == "UTF8_STRING"
  }

  /** strncpy into char mime[32], then mime[31] = '\0': the first 31
      characters. */
  function Truncate(t: string): (r: string)
    ensures |r| <= 31
  {
    if |t| <= 31 then t else t[..31]
  }

  /** What one field adds to the MIME type list. */
  function Entry(t: string): seq<string>
  {
    if t == [] || TextType(t) then [] else [Truncate(t)]
  }

  /** The binary MIME types of a list of fields, in order. */
  function MimeTypes(ts: seq<string>): seq<string>
  {
    if |ts| == 0 then [] else Entry(ts[0]) + MimeTypes(ts[1..])
  }

  /** The MIME types parseClipTypes appends for a DLP_ClipTypes text. */
  function ClipTypes(text: string): seq<string>
  {
    MimeTypes(Fields(text))
  }

  /** A usable binary MIME type: not empty, at most 31 characters, no
      comma, and none of the text types. */
  predicate MimeOk(m: string)
  {
    1 <= |m| <= 31 && NoComma(m) && !TextType(m)
  }

  /** Truncating a kept field keeps it usable. */
  lemma TruncateKept(t: string)
    requires t != [] && NoComma(t) && !TextType(t)
    ensures MimeOk(Truncate(t))
  {
    if |t| > 31 {
      var m := t[..31];
      if Contains(m, "text/plain") {
        ContainsPrefix(t, 31, "text/plain");
      }
    }
  }

  /** Every MIME type read from comma-free fields is usable. */
  lemma {:induction false} MimeTypesOk(ts: seq<string>)
    requires forall k :: 0 <= k < |ts| ==> NoComma(ts[k])
    ensures forall k :: 0 <= k < |MimeTypes(ts)| ==> MimeOk(MimeTypes(ts)[k])
  {
    if |ts| > 0 {
      MimeTypesOk(ts[1..]);
      if Entry(ts[0]) != [] {
        TruncateKept(ts[0]);
      }
    }
  }

  /** A list of usable MIME types, written with commas, reads back as
      itself: nothing is dropped, cut or reordered. */
  lemma {:induction false} MimeTypesReadBack(ms: seq<string>)
    requires |ms| >= 1 && forall k :: 0 <= k < |ms| ==> MimeOk(ms[k])
    ensures ClipTypes(Join(ms)) == ms
  {
    FieldsJoin(ms);
    MimeTypesOfOk(ms);
  }

  lemma {:induction false} MimeTypesOfOk(ms: seq<string>)
    requires forall k :: 0 <= k < |ms| ==> MimeOk(ms[k])
    ensures MimeTypes(ms) == ms
  {
    if |ms| > 0 {
      MimeTypesOfOk(ms[1..]);
      assert ms == [ms[0]] + ms[1..];
    }
  }

  // ---------------------------------------------------------------------
  // vncSetLEDState
  // ---------------------------------------------------------------------

  datatype Led = CapsLock | NumLock | ScrollLock

  /** The LED state for the X server's LED bits: bit 0 is Caps Lock, bit 1
      Num Lock, bit 2 Scroll Lock. */
  function LedState(leds: nat): (r: set<Led>)
    ensures CapsLock in r <==> leds % 2 == 1
    ensures NumLock in r <==> leds / 2 % 2 == 1
    ensures ScrollLock in r <==> leds / 4 % 2 == 1
  {
    (if leds % 2 == 1 then {CapsLock} else {}) +
    (if leds / 2 % 2 == 1 then {NumLock} else {}) +
    (if leds / 4 % 2 == 1 then {ScrollLock} else {})
  }

  /** The X server's LED bits of a state. */
  function LedBits(s: set<Led>): nat
  {
    (if CapsLock in s then 1 else 0) + (if NumLock in s then 2 else 0) + (if ScrollLock in s then 4 else 0)
  }

  /** Only the three low bits count: the state of leds is the state of
      its low three bits, and those bits are what the state gives back. */
  lemma LedLowBits(leds: nat)
    ensures LedBits(LedState(leds)) == leds % 8
    ensures LedState(leds) == LedState(leds % 8)
  {
    var a, b, c := leds % 2, leds / 2 % 2, leds / 4 % 2;
    var q := leds / 8;
    assert leds / 4 == 2 * q + c;
    assert leds / 2 == 4 * q + 2 * c + b;
    assert leds == 8 * q + (a + 2 * b + 4 * c);
    Bytes.DivModUnique(q, 8, a + 2 * b + 4 * c);
  }

  /** Every LED state comes from its own bits. */
  lemma LedStateOfBits(s: set<Led>)
    ensures LedState(LedBits(s)) == s
  {
    var n := LedBits(s);
    assert n % 2 == 1 <==> CapsLock in s;
    assert n / 2 % 2 == 1 <==> NumLock in s;
    assert n / 4 % 2 == 1 <==> ScrollLock in s;
    forall l: Led
      ensures l in LedState(n) <==> l in s
    {
      match l
      case CapsLock =>
      case NumLock =>
      case ScrollLock =>
    }
  }

  // ---------------------------------------------------------------------
  // vncExtensionInit: the checks of the settings
  // ---------------------------------------------------------------------

  /** MAXSCREENS */
  const MaxScreens := 16

  /** DLP_ClipLog takes one of three values. */
  predicate ClipLogOk(s: string)
  {
    s == "off" || s == "info" || s == "verbose"
  }

  /** sscanf(s, "%ux%u", &x, &y) == 2 with the two values as stored: each
      %u conversion reads what strtoul reads, a sign included, and keeps
      the low 32 bits. */
  function ScanResolution(s: string): Option<(nat, nat)>
  {
    match Watermark.Conv(s, 0)
    case None => None
    case Some((x, e)) =>
      if e < |s| && s[e] == 'x' then
        match Watermark.Conv(s[e + 1..], 0)
        case None => None
        case Some((y, _)) => Some((x % 0x1_0000_0000, y % 0x1_0000_0000))
      else None
  }

  /** The MaxVideoResolution check: "WxH" with both at least 16. */
  predicate MaxVideoResOk(s: string)
  {
    s != [] && ScanResolution(s).Some? && ScanResolution(s).value.0 >= 16 && ScanResolution(s).value.1 >= 16
  }

  /** "WxH" written in decimal reads back as (W, H), after the low 32 bits
      are kept; it passes the check exactly when both stored values are at
      least 16. A negative width is stored as its 32-bit wrap. */
  lemma ResolutionReadsBack(w: int, h: int)
    ensures ScanResolution(VncServerSt.Signed(w) + "x" + VncServerSt.Signed(h)) ==
      Some((w % 0x1_0000_0000, h % 0x1_0000_0000))
    ensures MaxVideoResOk(VncServerSt.Signed(w) + "x" + VncServerSt.Signed(h)) <==>
      w % 0x1_0000_0000 >= 16 && h % 0x1_0000_0000 >= 16
  {
    var sw, sh := VncServerSt.Signed(w), VncServerSt.Signed(h);
    var s := sw + "x" + sh;
    assert s[0..] == sw + ("x" + sh);
    VncServerSt.StrToLAt(s, 0, w, "x" + sh);
    assert s[|sw|] == 'x';
    assert s[|sw| + 1..] == sh;
    Watermark.LastReadsBack(h);
  }

  /** Why vncExtensionInit stops the server (vncFatalError). */
  datatype Fault = TooManyScreens | InvalidClipLog | InvalidMaxVideoResolution | InvalidWatermark

  /** How vncExtensionInit ends. */
  datatype Started = CalledTwice | Running | Fatal(fault: Fault)

  /** What vncExtensionInit decides: nothing on a second call in the same
      server generation; more screens than MAXSCREENS are fatal; the first
      start checks DLP_ClipLog, MaxVideoResolution and the watermark
      settings (`watermarkOk`, the answer of watermarkInit) in that order. */
  function Verdict(sameGeneration: bool, screens: nat, initialised: bool, clipLog: string, maxVideoRes: string,
                   watermarkOk: bool): (r: Started)
    ensures r == CalledTwice <==> sameGeneration
    ensures r == Fatal(TooManyScreens) <==> !sameGeneration && screens > MaxScreens
    ensures r.Fatal? && r.fault != TooManyScreens ==> !initialised
  {
    if sameGeneration then CalledTwice
    else if screens > MaxScreens then Fatal(TooManyScreens)
    else if initialised then Running
    else if !ClipLogOk(clipLog) then Fatal(InvalidClipLog)
    else if !MaxVideoResOk(maxVideoRes) then Fatal(InvalidMaxVideoResolution)
    else if !watermarkOk then Fatal(InvalidWatermark)
    else Running
  }

  /** The first start of a generation succeeds exactly when the screens
      fit and all three settings are valid; later generations check only
      the screens. */
  lemma VerdictMeaning(screens: nat, initialised: bool, clipLog: string, maxVideoRes: string, watermarkOk: bool)
    ensures !initialised ==>
      (Verdict(false, screens, false, clipLog, maxVideoRes, watermarkOk) == Running <==>
       screens <= MaxScreens && ClipLogOk(clipLog) && MaxVideoResOk(maxVideoRes) && watermarkOk)
    ensures Verdict(false, screens, true, clipLog, maxVideoRes, watermarkOk) == Running <==> screens <= MaxScreens
    ensures forall w, h :: Verdict(false, 1, false, "info", VncServerSt.Signed(w) + "x" + VncServerSt.Signed(h), true) == Running <==>
      w % 0x1_0000_0000 >= 16 && h % 0x1_0000_0000 >= 16
  {
    forall w, h
      ensures Verdict(false, 1, false, "info", VncServerSt.Signed(w) + "x" + VncServerSt.Signed(h), true) == Running <==>
        w % 0x1_0000_0000 >= 16 && h % 0x1_0000_0000 >= 16
    {
      ResolutionReadsBack(w, h);
    }
  }

  /** One field of parseOverrideList: the field from `start` ends at
      `iter`, at a comma or at the end of the text. */
  lemma OverrideStep(text: string, start: nat, iter: nat)
    requires start <= iter <= |text| && (iter < |text| ==> text[iter] == ',')
    requires forall j :: start <= j < iter ==> text[j] != ','
    ensures iter < |text| ==> OverrideSet(text[start..]) == {Fold(text[start..iter])} + OverrideSet(text[iter + 1..])
    ensures iter == |text| ==> OverrideSet(text[start..]) == {Fold(text[start..iter])}
  {
    var u, i := text[start..], iter - start;
    assert OverrideSet(u) == Keys(Fields(u));
    forall j | 0 <= j < i
      ensures u[j] != ','
    {
      assert u[j] == text[start + j];
    }
    FieldsSplit(u, i);
    if iter < |text| {
      assert u[..i] == text[start..iter] && u[i + 1..] == text[iter + 1..];
      KeysCons(u[..i], Fields(u[i + 1..]));
    } else {
      assert u == text[start..iter];
      assert Keys([u]) == {Fold(u)} by {
        assert [u][0] == u;
      }
    }
  }

  /** strsep(&str, ","): the field up to the first comma, and what
      follows it, or None (str set to NULL) when there is no comma. */
  function Strsep(str: string): (r: (string, Option<string>))
    ensures r.1.Some? ==> |r.1.value| < |str|
  {
    var i := Find(str, ',');
    if i == |str| then (str, None) else (str[..i], Some(str[i + 1..]))
  }

  /** The MIME types of str are those of the field strsep cuts, followed by
      those of what it leaves. */
  lemma StrsepClipTypes(str: string)
    ensures ClipTypes(str) == Entry(Strsep(str).0) + Pending(Strsep(str).1)
  {
    var i := Find(str, ',');
    FieldsSplit(str, i);
    var fs := Fields(str);
    assert MimeTypes(fs) == Entry(fs[0]) + MimeTypes(fs[1..]);
    if i == |str| {
      assert fs == [str] && fs[1..] == [];
    } else {
      assert fs[0] == str[..i] && fs[1..] == Fields(str[i + 1..]);
    }
  }

  /** The MIME types still to come from str. */
  function Pending(str: Option<string>): seq<string>
  {
    if str.None? then [] else ClipTypes(str.value)
  }

  /** Usable MIME types followed by those of a DLP_ClipTypes text are all
      usable. */
  lemma AppendOk(ms: seq<string>, clipTypes: string)
    requires forall k :: 0 <= k < |ms| ==> MimeOk(ms[k])
    ensures forall k :: 0 <= k < |ms + ClipTypes(clipTypes)| ==> MimeOk((ms + ClipTypes(clipTypes))[k])
  {
    JoinFields(clipTypes);
    MimeTypesOk(Fields(clipTypes));
  }

  /** parseOverrideList(text, out): every field of the comma-separated
      text, empty ones included, joins the set `out`, passed by reference
      in the code and here in and out. */
  method ParseOverrideList(text: string, out: set<string>) returns (out': set<string>)
    ensures out' == out + OverrideSet(text)
  {
    out' := out;
    var start, iter := 0, 0;
    while true
      invariant start <= iter <= |text|
      invariant forall j :: start <= j < iter ==> text[j] != ','
      invariant out' + OverrideSet(text[start..]) == out + OverrideSet(text)
      decreases |text| - iter
    {
      if iter == |text| || text[iter] == ',' {
        OverrideStep(text, start, iter);
        out' := out' + {Fold(text[start..iter])};
        if iter == |text| {
          break;
        }
        start := iter + 1;
      }
      iter := iter + 1;
    }
  }

  // ---------------------------------------------------------------------
  // The extension's state
  // ---------------------------------------------------------------------

  /** The static state of vncExtInit.cc: the generation last started, the
      initialised flag, allowOverrideSet (its folded names), whether the
      AllowOverride parameter is immutable, and dlp_mimetypes. */
  class Extension {
    var generation: nat
    var initialised: bool
    var allowOverrideSet: set<string>
    var overrideImmutable: bool
    var mimetypes: seq<string>

    /** Every listed MIME type is usable. */
    ghost predicate Valid()
      reads this
    {
      forall k :: 0 <= k < |mimetypes| ==> MimeOk(mimetypes[k])
    }

    /** The state at program start. */
    constructor ()
      ensures Valid() && generation == 0 && !initialised && allowOverrideSet == {} && !overrideImmutable && mimetypes == []
    {
      generation := 0;
      initialised := false;
      allowOverrideSet := {};
      overrideImmutable := false;
      mimetypes := [];
    }

    /** parseClipTypes(): the fields of DLP_ClipTypes, taken one by one
        with strsep, are appended to dlp_mimetypes, cut to 31 characters,
        except the empty ones and the text types. */
    method ParseClipTypes(clipTypes: string)
      modifies this`mimetypes
      ensures mimetypes == old(mimetypes) + ClipTypes(clipTypes)
    {
      var str: Option<string> := Some(clipTypes);
      while str.Some?
        invariant old(mimetypes) + ClipTypes(clipTypes) == mimetypes + Pending(str)
        decreases if str.Some? then |str.value| + 1 else 0
      {
        str := NextClipType(str.value);
      }
      assert Pending(str) == [];
    }

    /** One turn of the parseClipTypes loop: strsep cuts the next field off
        str, which is then added. */
    method NextClipType(str: string) returns (next: Option<string>)
      modifies this`mimetypes
      ensures mimetypes + Pending(next) == old(mimetypes) + ClipTypes(str)
      ensures next.Some? ==> |next.value| < |str|
    {
      StrsepClipTypes(str);
      var cur;
      cur, next := Strsep(str).0, Strsep(str).1;
      AddClipType(cur);
    }

    /** The body of the parseClipTypes loop for one field: an empty field
        and the text types are skipped; any other field is appended, cut to
        31 characters. */
    method AddClipType(cur: string)
      modifies this`mimetypes
      ensures mimetypes == old(mimetypes) + Entry(cur)
    {
      if cur == [] {
        return;
      }
      if cur == "TEXT" || cur == "STRING" || Contains(cur, "text/plain") || cur == "UTF8_STRING" {
        return;
      }
      mimetypes := mimetypes + [Truncate(cur)];
    }

    /** dlp_num_mimetypes() */
    method NumMimetypes() returns (n: nat)
      ensures n == |mimetypes|
    {
      n := |mimetypes|;
    }

    /** dlp_get_mimetype(i), for an index below dlp_num_mimetypes(). */
    method GetMimetype(i: nat) returns (m: string)
      requires i < |mimetypes|
      ensures m == mimetypes[i]
      ensures Valid() ==> MimeOk(m)
    {
      m := mimetypes[i];
    }

    /** vncExtensionInit, as far as the settings go. `gen` is the server
        generation, `screens` the screen count, and the strings are the
        DLP_ClipTypes, AllowOverride, DLP_ClipLog and MaxVideoResolution
        settings; `watermarkOk` is what watermarkInit answers. */
    method Init(gen: nat, screens: nat, clipTypes: string, allowOverride: string, clipLog: string, maxVideoRes: string,
                watermarkOk: bool) returns (r: Started)
      requires Valid()
      modifies this
      ensures Valid()
      ensures r == Verdict(gen == old(generation), screens, old(initialised), clipLog, maxVideoRes, watermarkOk)
      ensures r == CalledTwice ==> unchanged(this)
      ensures r != CalledTwice ==> generation == gen
      ensures r == Running ==> initialised
      ensures r == Running && !old(initialised) ==>
        mimetypes == old(mimetypes) + ClipTypes(clipTypes) &&
        allowOverrideSet == old(allowOverrideSet) + OverrideSet(allowOverride) && overrideImmutable
      ensures old(initialised) ==> mimetypes == old(mimetypes) && allowOverrideSet == old(allowOverrideSet)
    {
      if generation == gen {
        return CalledTwice;
      }
      generation := gen;
      if screens > MaxScreens {
        return Fatal(TooManyScreens);
      }
      if !initialised {
        ParseClipTypes(clipTypes);
        AppendOk(old(mimetypes), clipTypes);
      }
      if !initialised {
        allowOverrideSet := ParseOverrideList(allowOverride, allowOverrideSet);
        overrideImmutable := true;
        if clipLog == [] || (clipLog != "off" && clipLog != "info" && clipLog != "verbose") {
          return Fatal(InvalidClipLog);
        }
        if maxVideoRes == [] || ScanResolution(maxVideoRes).None? ||
           ScanResolution(maxVideoRes).value.0 < 16 || ScanResolution(maxVideoRes).value.1 < 16 {
          return Fatal(InvalidMaxVideoResolution);
        }
        if !watermarkOk {
          return Fatal(InvalidWatermark);
        }
        initialised := true;
      }
      return Running;
    }
  }
}
