/** The single-threaded VNC server's own state: the DLP_Region setting (the
    part of the screen clients may see) parsed at start-up and translated
    to pixel bounds for the current framebuffer, the update blocking that
    gates the frame clock, the comparison switch, the keyboard LED state and
    the ownership of the clipboard among the clients. */
module VncServerSt {
  import opened Bytes
  import opened Wrappers

  // ---- C library helpers: isspace, isdigit, strtol ----

  predicate IsSpace(c: char)
  {
    c == ' ' || 9 <= c as int <= 13
  }

  predicate IsDigit(c: char)
  {
    '0' <= c <= '9'
  }

  predicate AllDigits(ds: string)
  {
    forall k :: 0 <= k < |ds| ==> IsDigit(ds[k])
  }

  /** The character a C pointer to index i of s reads: NUL past the end. */
  function At(s: string, i: nat): char
  {
    if i < |s| then s[i] else '\0'
  }

  /** The decimal digits from i on, accumulated onto acc: the value and
      where the digits end. */
  function DigitScan(s: string, i: nat, acc: int): (r: (int, nat))
    requires i <= |s|
    ensures i <= r.1 <= |s|
    decreases |s| - i
  {
    if i < |s| && IsDigit(s[i]) then DigitScan(s, i + 1, acc * 10 + (s[i] as int - '0' as int))
    else (acc, i)
  }

  /** strtol once the white space is behind: an optional sign and at least
      one digit, or no conversion with the end at the start. */
  function SignedNumber(s: string, j: nat): (r: (int, nat))
    requires j <= |s|
    ensures r.1 == j || j < r.1 <= |s|
    ensures r.1 == j ==> r.0 == 0
  {
    var k := if j < |s| && (s[j] == '-' || s[j] == '+') then j + 1 else j;
    var (v, e) := DigitScan(s, k, 0);
    if e == k then (0, j)
    else (if k > j && s[j] == '-' then -v else v, e)
  }

  /** strtol(s + i, &end, 10): leading white space is skipped; when
      nothing is converted the end is the start i itself. The result is
      the value and the end index. */
  function StrToL(s: string, i: nat): (r: (int, nat))
    requires i <= |s|
    ensures r.1 == i || i < r.1 <= |s|
    ensures r.1 == i ==> r.0 == 0
    decreases |s| - i
  {
    if i < |s| && IsSpace(s[i]) then
      var r := StrToL(s, i + 1);
      if r.1 == i + 1 then (0, i) else r
    else SignedNumber(s, i)
  }

  /** `for (; *ptr && *ptr == ','; ptr++);` */
  function SkipCommas(s: string, i: nat): (j: nat)
    requires i <= |s|
    ensures i <= j <= |s| && (j == |s| || s[j] != ',')
    decreases |s| - i
  {
    if i < |s| && s[i] == ',' then SkipCommas(s, i + 1) else i
  }

  // ---- DLP_Region ----

  /** Why the server refuses a DLP_Region setting (it logs and exits). */
  datatype RegionError = NotFourValues | InvalidValue | MixedPercentages
                       | PercentRange | X2NotAfterX1 | Y2NotAfterY1

  /** The parsed region: absolute values (negative ones count from the right
      or bottom edge) or percentages (pc*, cut to 16 bits). A field the code
      leaves unset is 0 here. */
  datatype Region = Region(enabled: bool, percents: bool,
                           x1: int, y1: int, x2: int, y2: int,
                           pcx1: u16, pcy1: u16, pcx2: u16, pcy2: u16)

  const Disabled := Region(false, false, 0, 0, 0, 0, 0, 0, 0, 0)

  /** One value: strtol from i, failing on the end of the string or when no
      digit was read; the value, where it ends and whether '%' follows. */
  function ParseValue(s: string, i: nat): (r: Result<(int, nat, bool), RegionError>)
    requires i <= |s|
    ensures r.Ok? ==> i < r.value.1 <= |s| && (r.value.2 <==> At(s, r.value.1) == '%')
    ensures r.Err? ==> r.error == InvalidValue
  {
    var (v, n) := StrToL(s, i);
    if i >= |s| || n == i then Err(InvalidValue)
    else Ok((v, n, At(s, n) == '%'))
  }

  /** parseRegionPart: the second to fourth value must carry '%' exactly
      when the first did, a percentage must be 0..100, and the commas after
      the value are skipped. The value and the index after them. */
  function ParsePart(percents: bool, s: string, i: nat): (r: Result<(int, nat), RegionError>)
    requires i <= |s|
    ensures r.Ok? ==> i < r.value.1 <= |s|
    ensures r.Ok? && percents ==> 0 <= r.value.0 <= 100
  {
    match ParseValue(s, i)
    case Err(e) => Err(e)
    case Ok((v, n, pct)) =>
      if pct then
        if !percents then Err(MixedPercentages)
        else if v < 0 || v > 100 then Err(PercentRange)
        else Ok((v, SkipCommas(s, n + 1)))
      else if percents then Err(MixedPercentages)
      else Ok((v, SkipCommas(s, n)))
  }

  /** The server constructor's reading of DLP_Region. */
  function RegionOf(s: string): (r: Result<Region, RegionError>)
    ensures |s| == 0 <==> r.Ok? && !r.value.enabled
    ensures |s| > 0 && multiset(s)[','] != 3 ==> r == Err(NotFourValues)
    ensures r.Ok? && r.value.enabled ==> multiset(s)[','] == 3
    ensures r.Ok? && r.value.percents ==>
      && 0 <= r.value.y1 <= 100 && 0 <= r.value.x2 <= 100 && 0 <= r.value.y2 <= 100
      && r.value.pcx1 == ToU16(r.value.x1) && r.value.pcy1 == r.value.y1
      && r.value.pcx2 == r.value.x2 && r.value.pcy2 == r.value.y2
    ensures r.Ok? && r.value.enabled && !r.value.percents ==>
      && !(r.value.x1 > 0 && r.value.x2 > 0 && r.value.x2 <= r.value.x1)
      && !(r.value.y1 > 0 && r.value.y2 > 0 && r.value.y2 <= r.value.y1)
  {
    if |s| == 0 then Ok(Disabled)
    else if multiset(s)[','] != 3 then Err(NotFourValues)
    else
      match ParseValue(s, 0)
      case Err(e) => Err(e)
      case Ok((a, n, pc)) =>
        var p := SkipCommas(s, if pc then n + 1 else n);
        match ParsePart(pc, s, p)
        case Err(e) => Err(e)
        case Ok((b, p)) =>
          match ParsePart(pc, s, p)
          case Err(e) => Err(e)
          case Ok((c, p)) =>
            match ParsePart(pc, s, p)
            case Err(e) => Err(e)
            case Ok((d, _)) =>
              if !pc && a > 0 && c > 0 && c <= a then Err(X2NotAfterX1)
              else if !pc && b > 0 && d > 0 && d <= b then Err(Y2NotAfterY1)
              else if pc then Ok(Region(true, true, a, b, c, d, ToU16(a), b, c, d))
              else Ok(Region(true, false, a, b, c, d, 0, 0, 0, 0))
  }

  /** The comma count of the constructor's first loop. */
  method CountCommas(s: string) returns (commas: nat)
    ensures commas == multiset(s)[',']
  {
    commas := 0;
    var i := 0;
    while i < |s|
      invariant 0 <= i <= |s|
      invariant commas == multiset(s[..i])[',']
    {
      assert s[..i + 1] == s[..i] + [s[i]];
      if s[i] == ',' {
        commas := commas + 1;
      }
      i := i + 1;
    }
    assert s[..i] == s;
  }

  // ---- writing a region down, to read it back ----

  function DigitChar(d: nat): char
    requires d < 10
  {
    ('0' as int + d) as char
  }

  /** n in decimal. */
  function Dec(n: nat): (r: string)
    ensures |r| >= 1 && IsDigit(r[0])
  {
    if n < 10 then [DigitChar(n)] else Dec(n / 10) + [DigitChar(n % 10)]
  }

  lemma {:induction false} DecDigits(n: nat)
    ensures AllDigits(Dec(n))
  {
    if n >= 10 {
      DecDigits(n / 10);
    }
  }

  /** An int in decimal with a '-' when negative. */
  function Signed(v: int): (r: string)
    ensures |r| >= 1 && r[0] != ',' && r[0] != '%' && !IsSpace(r[0]) && r[0] != '+'
    ensures v < 0 <==> r[0] == '-'
    decreases if v < 0 then 1 else 0
  {
    if v < 0 then "-" + Signed(-v) else Dec(v)
  }

  /** The '%' after a value in percent form. */
  function Mark(pct: bool): string
  {
    if pct then "%" else ""
  }

  /** The value of digits read left to right onto acc. */
  function Fold(acc: int, ds: string): int
    decreases |ds|
  {
    if |ds| == 0 then acc else Fold(acc * 10 + (ds[0] as int - '0' as int), ds[1..])
  }

  lemma {:induction false} FoldSnoc(acc: int, x: string, c: char)
    ensures Fold(acc, x + [c]) == Fold(acc, x) * 10 + (c as int - '0' as int)
    decreases |x|
  {
    if |x| > 0 {
      assert (x + [c])[1..] == x[1..] + [c];
      FoldSnoc(acc * 10 + (x[0] as int - '0' as int), x[1..], c);
    }
  }

  lemma {:induction false} FoldDec(n: nat)
    ensures Fold(0, Dec(n)) == n
  {
    if n >= 10 {
      FoldSnoc(0, Dec(n / 10), DigitChar(n % 10));
      FoldDec(n / 10);
    }
  }

  /** The scan stops at the first non-digit. */
  lemma {:induction false} ScanDigits(s: string, i: nat, j: nat, acc: int)
    requires i <= j <= |s| && AllDigits(s[i..j]) && (j == |s| || !IsDigit(s[j]))
    ensures DigitScan(s, i, acc) == (Fold(acc, s[i..j]), j)
    decreases j - i
  {
    if i < j {
      assert IsDigit(s[i..j][0]);
      assert s[i + 1..j] == s[i..j][1..];
      ScanDigits(s, i + 1, j, acc * 10 + (s[i] as int - '0' as int));
    }
  }

  /** The digits of n, followed by a non-digit or the end, scan back as n. */
  lemma DecAt(s: string, k: nat, n: nat, rest: string)
    requires k <= |s| && s[k..] == Dec(n) + rest
    requires rest == [] || !IsDigit(rest[0])
    ensures DigitScan(s, k, 0) == (n, k + |Dec(n)|)
  {
    var ds := Dec(n);
    var e := k + |ds|;
    assert s[k..e] == ds by {
      assert s[k..][..|ds|] == ds;
    }
    if e < |s| {
      assert s[e] == s[k..][|ds|] == rest[0];
    }
    DecDigits(n);
    FoldDec(n);
    ScanDigits(s, k, e, 0);
  }

  /** strtol reads back a value written by Signed when a non-digit, or the
      end of the string, follows it. */
  lemma StrToLAt(s: string, o: nat, v: int, rest: string)
    requires o <= |s| && s[o..] == Signed(v) + rest
    requires rest == [] || !IsDigit(rest[0])
    ensures StrToL(s, o) == (v, o + |Signed(v)|)
  {
    assert s[o] == Signed(v)[0];
    if v < 0 {
      var n := -v;
      assert s[o] == '-' && s[o + 1..] == Dec(n) + rest && |Signed(v)| == 1 + |Dec(n)| by {
        assert Signed(v) == "-" + Dec(n);
        assert s[o + 1..] == s[o..][1..];
      }
      NegativeAt(s, o, n, rest);
    } else {
      DecAt(s, o, v, rest);
      assert StrToL(s, o) == SignedNumber(s, o);
    }
  }

  lemma NegativeAt(s: string, o: nat, n: nat, rest: string)
    requires o < |s| && s[o] == '-' && s[o + 1..] == Dec(n) + rest
    requires rest == [] || !IsDigit(rest[0])
    ensures StrToL(s, o) == (-(n as int), o + 1 + |Dec(n)|)
  {
    DecAt(s, o + 1, n, rest);
    assert StrToL(s, o) == SignedNumber(s, o);
  }

  /** What parseRegionPart answers for a value written with or without
      '%', in a setting whose first value was marked `percents`. */
  function PartResult(percents: bool, v: int, pct: bool, next: nat): Result<(int, nat), RegionError>
  {
    if pct != percents then Err(MixedPercentages)
    else if pct && !(0 <= v <= 100) then Err(PercentRange)
    else Ok((v, next))
  }

  /** parseRegionPart from what strtol and the comma loop give. */
  lemma PartFrom(percents: bool, s: string, o: nat, v: int, e: nat, pct: bool, next: nat)
    requires o <= |s| && e <= |s| && (pct ==> e < |s|)
    requires ParseValue(s, o) == Ok((v, e, pct))
    requires SkipCommas(s, if pct then e + 1 else e) == next
    ensures ParsePart(percents, s, o) == PartResult(percents, v, pct, next)
  {
  }

  lemma ValueEnd(s: string, o: nat, v: int, pct: bool, tail: string)
    requires o <= |s| && s[o..] == Signed(v) + (Mark(pct) + tail)
    requires tail == [] || (|tail| > 1 && tail[0] == ',' && tail[1] != ',')
    ensures var e := o + |Signed(v)|;
      var next := o + |Signed(v)| + |Mark(pct)| + (if tail == [] then 0 else 1);
      && next <= |s| && (pct ==> e + 1 <= |s|)
      && ParseValue(s, o) == Ok((v, e, pct))
      && SkipCommas(s, if pct then e + 1 else e) == next
  {
    var e := o + |Signed(v)|;
    StrToLAt(s, o, v, Mark(pct) + tail);
    assert e <= |s| && s[e..] == Mark(pct) + tail by {
      assert s[e..] == s[o..][|Signed(v)|..];
    }
    ParseFrom(s, o, v, e, pct, tail);
  }

  /** parseRegionPart's reading of a value strtol ends at e, with the mark
      and the comma after it. */
  lemma ParseFrom(s: string, o: nat, v: int, e: nat, pct: bool, tail: string)
    requires o < e <= |s| && StrToL(s, o) == (v, e) && s[e..] == Mark(pct) + tail
    requires tail == [] || (|tail| > 1 && tail[0] == ',' && tail[1] != ',')
    ensures var next := e + |Mark(pct)| + (if tail == [] then 0 else 1);
      && next <= |s| && (pct ==> e + 1 <= |s|)
      && ParseValue(s, o) == Ok((v, e, pct))
      && SkipCommas(s, if pct then e + 1 else e) == next
  {
    MarkAt(s, e, pct, tail);
  }

  /** The '%' mark, if any, and the comma after a value. */
  lemma MarkAt(s: string, e: nat, pct: bool, tail: string)
    requires e <= |s| && s[e..] == Mark(pct) + tail
    requires tail == [] || (|tail| > 1 && tail[0] == ',' && tail[1] != ',')
    ensures (At(s, e) == '%') == pct && (pct ==> e + 1 <= |s|)
    ensures var next := e + |Mark(pct)| + (if tail == [] then 0 else 1);
      next <= |s| && SkipCommas(s, if pct then e + 1 else e) == next
  {
    var m := if pct then e + 1 else e;
    assert |s| == e + |Mark(pct)| + |tail|;
    if pct {
      assert s[e] == s[e..][0] == '%';
    } else if tail != [] {
      assert s[e] == s[e..][0] == ',';
    }
    if tail != [] {
      assert s[m] == s[e..][|Mark(pct)|] == ',';
      assert s[m + 1] == s[e..][|Mark(pct)| + 1] == tail[1];
      assert SkipCommas(s, m + 1) == m + 1;
    }
  }


  /** The constructor's verdict on a setting whose four values read as
      a, b, c, d with marks pa, pb, pc, pd, each followed by one comma. */
  lemma RegionFromValues(s: string, a: int, b: int, c: int, d: int, pa: bool, pb: bool, pc: bool, pd: bool,
                         e1: nat, o2: nat, e2: nat, o3: nat, e3: nat, o4: nat, e4: nat)
    requires 0 < |s| && multiset(s)[','] == 3
    requires e1 < o2 <= e2 < o3 <= e3 < o4 <= e4 <= |s|
    requires pd ==> e4 < |s|
    requires ParseValue(s, 0) == Ok((a, e1, pa)) && SkipCommas(s, if pa then e1 + 1 else e1) == o2
    requires ParseValue(s, o2) == Ok((b, e2, pb)) && SkipCommas(s, if pb then e2 + 1 else e2) == o3
    requires ParseValue(s, o3) == Ok((c, e3, pc)) && SkipCommas(s, if pc then e3 + 1 else e3) == o4
    requires ParseValue(s, o4) == Ok((d, e4, pd))
    ensures pa == pb == pc == pd && (pa ==> 0 <= b <= 100 && 0 <= c <= 100 && 0 <= d <= 100)
      && (!pa ==> !(a > 0 && c > 0 && c <= a) && !(b > 0 && d > 0 && d <= b))
      ==> RegionOf(s) == Ok(if pa then Region(true, true, a, b, c, d, ToU16(a), b, c, d)
                            else Region(true, false, a, b, c, d, 0, 0, 0, 0))
    ensures !(pa == pb == pc == pd) ==> RegionOf(s) == Err(MixedPercentages) || RegionOf(s) == Err(PercentRange)
    ensures pa && pb && pc && pd && !(0 <= b <= 100 && 0 <= c <= 100 && 0 <= d <= 100) ==> RegionOf(s) == Err(PercentRange)
    ensures !pa && !pb && !pc && !pd && ((a > 0 && c > 0 && c <= a) || (b > 0 && d > 0 && d <= b))
      ==> RegionOf(s).Err?
  {
    PartFrom(pa, s, o2, b, e2, pb, o3);
    PartFrom(pa, s, o3, c, e3, pc, o4);
    PartFrom(pa, s, o4, d, e4, pd, SkipCommas(s, if pd then e4 + 1 else e4));
  }

  // ---- translateDLPRegion ----

  /** C's int division, which truncates toward zero. */
  function CDiv(a: int, b: int): (q: int)
    requires b > 0
    ensures a >= 0 ==> q == a / b
  {
    if a >= 0 then a / b else -((-a) / b)
  }

  /** abs() */
  function Abs(v: int): nat
  {
    if v < 0 then -v else v
  }

  /** The pixel bounds (x1, y1, x2, y2) of the region on a w x h
      framebuffer, each assigned to a 16-bit variable. */
  datatype Bounds = Bounds(x1: u16, y1: u16, x2: u16, y2: u16)

  /** The near edge of percent form: p percent of n, 0 when p is 0. */
  function Near(p: int, n: int): int
  {
    if p != 0 then p * n / 100 else 0
  }

  /** The far edge of percent form: 100 - p percent of n, in C's
      division, or n itself when p is 0. */
  function Far(p: int, n: int): int
  {
    if p != 0 then CDiv((100 - p) * n, 100) else n
  }

  /** The far edge of absolute form: a negative v counts back from n, a
      positive one is taken as it is, 0 means n; the sum is formed in the
      16-bit variable. */
  function AbsFar(v: int, n: int): u16
  {
    if v < 0 then ToU16(ToU16(n) + v) else if v > 0 then ToU16(v) else ToU16(n)
  }

  /** The bounds before the final clamp of x2 and y2. */
  function Unclamped(r: Region, w: int, h: int): Bounds
  {
    if r.percents then
      Bounds(ToU16(Near(r.pcx1, w)), ToU16(Near(r.pcy1, h)), ToU16(Far(r.pcx2, w)), ToU16(Far(r.pcy2, h)))
    else
      Bounds(ToU16(Abs(r.x1)), ToU16(Abs(r.y1)), AbsFar(r.x2, w), AbsFar(r.y2, h))
  }

  /** The final clamp: an x2 beyond the width becomes width - 1, a y2
      beyond the height height - 1; the rest is kept. */
  function Clamp(u: Bounds, w: int, h: int): (t: Bounds)
    requires 0 < w < TWO16 && 0 < h < TWO16
    ensures t.x2 <= w && t.y2 <= h
    ensures t.x1 == u.x1 && t.y1 == u.y1
    ensures u.x2 <= w ==> t.x2 == u.x2
    ensures u.x2 > w ==> t.x2 == w - 1
    ensures u.y2 <= h ==> t.y2 == u.y2
    ensures u.y2 > h ==> t.y2 == h - 1
  {
    var y2 := if u.y2 > h then ToU16(h - 1) else u.y2;
    var x2 := if u.x2 > w then ToU16(w - 1) else u.x2;
    Bounds(u.x1, u.y1, x2, y2)
  }

  /** translateDLPRegion on a w x h framebuffer, at least one pixel and at
      most 65535 pixels each way: the bounds of the region, clamped, so
      that x2 and y2 never pass the framebuffer's edge. */
  function Translate(r: Region, w: int, h: int): (t: Bounds)
    requires 0 < w < TWO16 && 0 < h < TWO16
    ensures t.x2 <= w && t.y2 <= h
  {
    Clamp(Unclamped(r, w, h), w, h)
  }

  /** The near edge of percent form with p in 0..100 lies in 0..n. */
  lemma NearAxis(p: int, n: int)
    requires 0 <= p <= 100 && 0 < n < TWO16
    ensures Near(p, n) == p * n / 100 && 0 <= Near(p, n) <= n && ToU16(Near(p, n)) == Near(p, n)
  {
    PercentOf(p, n);
  }

  /** The far edge of percent form with p in 0..100 lies in 0..n. */
  lemma FarAxis(p: int, n: int)
    requires 0 <= p <= 100 && 0 < n < TWO16
    ensures Far(p, n) == (if p == 0 then n else (100 - p) * n / 100)
    ensures 0 <= Far(p, n) <= n && ToU16(Far(p, n)) == Far(p, n)
  {
    if p != 0 {
      PercentOf(100 - p, n);
      assert CDiv((100 - p) * n, 100) == (100 - p) * n / 100;
    }
  }

  /** The near edge is at most the far one when the two percentages add
      up to at most 100. */
  lemma AxisOrder(p1: int, p2: int, n: int)
    requires 0 <= p1 <= 100 && 0 <= p2 <= 100 && 0 < n < TWO16 && p1 + p2 <= 100
    ensures Near(p1, n) <= Far(p2, n)
  {
    NearAxis(p1, n);
    FarAxis(p2, n);
    if p2 != 0 {
      PercentMono(p1, 100 - p2, n);
    }
  }

  /** Percent form with every percentage in 0..100: x1 = pcx1 * w / 100,
      x2 = (100 - pcx2) * w / 100 or w when pcx2 is 0, likewise for y; all
      inside the framebuffer, and x1 <= x2 when the two percentages leave
      something between them. */
  lemma PercentTranslate(r: Region, w: int, h: int)
    requires 0 < w < TWO16 && 0 < h < TWO16 && r.percents
    requires r.pcx1 <= 100 && r.pcy1 <= 100 && r.pcx2 <= 100 && r.pcy2 <= 100
    ensures var t := Translate(r, w, h);
      && t.x1 == r.pcx1 * w / 100 && t.y1 == r.pcy1 * h / 100
      && t.x2 == (if r.pcx2 == 0 then w else (100 - r.pcx2) * w / 100)
      && t.y2 == (if r.pcy2 == 0 then h else (100 - r.pcy2) * h / 100)
      && t.x1 <= w && t.y1 <= h
      && (r.pcx1 + r.pcx2 <= 100 ==> t.x1 <= t.x2)
      && (r.pcy1 + r.pcy2 <= 100 ==> t.y1 <= t.y2)
  {
    NearAxis(r.pcx1, w);
    NearAxis(r.pcy1, h);
    FarAxis(r.pcx2, w);
    FarAxis(r.pcy2, h);
    if r.pcx1 + r.pcx2 <= 100 {
      AxisOrder(r.pcx1, r.pcx2, w);
    }
    if r.pcy1 + r.pcy2 <= 100 {
      AxisOrder(r.pcy1, r.pcy2, h);
    }
    var u := Unclamped(r, w, h);
    assert u == Bounds(Near(r.pcx1, w), Near(r.pcy1, h), Far(r.pcx2, w), Far(r.pcy2, h));
  }

  /** p percent of n is between 0 and n. */
  lemma PercentOf(p: int, n: int)
    requires 0 <= p <= 100 && 0 <= n
    ensures 0 <= p * n / 100 <= n
  {
    assert p * n <= 100 * n;
  }

  lemma PercentMono(p: int, q: int, n: int)
    requires 0 <= p <= q && 0 <= n
    ensures p * n / 100 <= q * n / 100
  {
    assert p * n <= q * n;
  }

  /** The far edge of absolute form: from the edge when negative and not
      past the other side, as given when positive, the edge when zero. */
  lemma AbsFarAxis(v: int, n: int)
    requires 0 < n < TWO16
    ensures -n <= v < 0 ==> AbsFar(v, n) == n + v
    ensures 0 < v < TWO16 ==> AbsFar(v, n) == v
    ensures v == 0 ==> AbsFar(v, n) == n
    ensures -TWO16 < v && v + n < 0 ==> AbsFar(v, n) > n
  {
  }

  /** Absolute form: x1 is |x1|; a negative x2 counts from the right edge,
      a positive one is taken as it is, zero means the right edge, and one
      beyond the width becomes width - 1; likewise for y. */
  lemma AbsoluteTranslate(r: Region, w: int, h: int)
    requires 0 < w < TWO16 && 0 < h < TWO16 && !r.percents
    requires Abs(r.x1) < TWO16 && Abs(r.y1) < TWO16
    ensures var t := Translate(r, w, h);
      && t.x1 == Abs(r.x1) && t.y1 == Abs(r.y1)
      && (-w <= r.x2 < 0 ==> t.x2 == w + r.x2)
      && (0 < r.x2 <= w ==> t.x2 == r.x2)
      && (r.x2 == 0 ==> t.x2 == w)
      && (w < r.x2 < TWO16 ==> t.x2 == w - 1)
      && (-h <= r.y2 < 0 ==> t.y2 == h + r.y2)
      && (0 < r.y2 <= h ==> t.y2 == r.y2)
      && (r.y2 == 0 ==> t.y2 == h)
      && (h < r.y2 < TWO16 ==> t.y2 == h - 1)
  {
    AbsFarAxis(r.x2, w);
    AbsFarAxis(r.y2, h);
  }

  /** A negative x2 that overshoots the left edge wraps in the 16-bit
      variable and ends at width - 1, the far side. */
  lemma AbsoluteOvershoot(r: Region, w: int, h: int)
    requires 0 < w < TWO16 && 0 < h < TWO16 && !r.percents
    requires -TWO16 < r.x2 && r.x2 + w < 0
    ensures Translate(r, w, h).x2 == w - 1
  {
    AbsFarAxis(r.x2, w);
  }

  // ---- the first percentage (finding) ----

  /** The setting "150%,0%,0%,0%". */
  const Wide: string := "150%,0%,0%,0%"

  lemma WideFirst()
    ensures ParseValue(Wide, 0) == Ok((150, 3, true))
  {
  }

  lemma WideSecond()
    ensures ParseValue(Wide, 5) == Ok((0, 6, true))
  {
  }

  lemma WideThird()
    ensures ParseValue(Wide, 8) == Ok((0, 9, true))
  {
  }

  lemma WideFourth()
    ensures ParseValue(Wide, 11) == Ok((0, 12, true))
  {
  }

  lemma WideCommas()
    ensures SkipCommas(Wide, 4) == 5 && SkipCommas(Wide, 7) == 8 && SkipCommas(Wide, 10) == 11
  {
  }

  lemma WideCount()
    ensures multiset(Wide)[','] == 3 && |Wide| == 13
  {
  }

  /** As written, the first value is not range-checked in percent form:
      "150%,0%,0%,0%" is accepted, and on a 100 x 100 framebuffer the
      region then starts at x1 = 150, right of x2 = 100. */
  lemma FirstPercentUnchecked()
    ensures RegionOf(Wide) == Ok(Region(true, true, 150, 0, 0, 0, 150, 0, 0, 0))
    ensures var t := Translate(RegionOf(Wide).value, 100, 100);
      t.x1 == 150 && t.x2 == 100
  {
    WideAccepted();
    WideTranslated();
  }

  lemma WideTranslated()
    ensures var t := Translate(Region(true, true, 150, 0, 0, 0, 150, 0, 0, 0), 100, 100);
      t.x1 == 150 && t.x2 == 100
  {
  }

  lemma WideAccepted()
    ensures RegionOf(Wide) == Ok(Region(true, true, 150, 0, 0, 0, 150, 0, 0, 0))
  {
    WideFirst();
    WideSecond();
    WideThird();
    WideFourth();
    WideCommas();
    WideCount();
    RegionFromValues(Wide, 150, 0, 0, 0, true, true, true, true, 3, 5, 6, 8, 9, 11, 12);
  }

  /** The reading evidently intended: the first percentage is held to
      0..100 like the other three. */
  function CheckedRegionOf(s: string): (r: Result<Region, RegionError>)
    ensures r.Ok? ==> RegionOf(s) == r
    ensures RegionOf(s).Err? ==> r == RegionOf(s)
  {
    match RegionOf(s)
    case Err(e) => Err(e)
    case Ok(g) => if g.percents && !(0 <= g.x1 <= 100) then Err(PercentRange) else Ok(g)
  }

  /** With the check, "150%,0%,0%,0%" is refused. */
  lemma CheckedRefusesWide()
    ensures CheckedRegionOf(Wide) == Err(PercentRange)
  {
    FirstPercentUnchecked();
  }

  /** With the check, every percentage is in 0..100, so the translated
      region lies inside the framebuffer; x1 <= x2 and y1 <= y2 whenever
      the percentages cut from the two sides add up to at most 100. */
  lemma CheckedRegionInside(s: string, w: int, h: int)
    requires 0 < w < TWO16 && 0 < h < TWO16
    requires CheckedRegionOf(s).Ok? && CheckedRegionOf(s).value.percents
    ensures var g := CheckedRegionOf(s).value;
      var t := Translate(g, w, h);
      && g.pcx1 <= 100 && g.pcy1 <= 100 && g.pcx2 <= 100 && g.pcy2 <= 100
      && t.x1 <= w && t.y1 <= h && t.x2 <= w && t.y2 <= h
      && (g.pcx1 + g.pcx2 <= 100 ==> t.x1 <= t.x2)
      && (g.pcy1 + g.pcy2 <= 100 ==> t.y1 <= t.y2)
  {
    var g := CheckedRegionOf(s).value;
    assert g.pcx1 == g.x1;
    PercentTranslate(g, w, h);
  }

  // ---- the server ----

  /** A client connection, by identity. */
  type ClientId = nat

  /** ledUnknown */
  const LedUnknown: int := -1

  class Server {
    var blockCounter: nat
    var frameTimerStarted: bool
    var frameTimerMs: int
    var desktopStarted: bool
    /** comparer->is_empty(): no changed region is pending. */
    var comparerEmpty: bool
    var ledState: int
    var clipboardClient: Option<ClientId>
    var clipboardRequestors: seq<ClientId>
    var dlpRegion: Region

    /** While updates are blocked the frame clock is not running. */
    ghost predicate Valid()
      reads this
    {
      blockCounter > 0 ==> !frameTimerStarted
    }

    /** A new server with the DLP region read from its setting: nothing
        blocked, no frame clock, LED state unknown, no clipboard owner. */
    constructor (region: Region)
      ensures Valid()
      ensures blockCounter == 0 && !frameTimerStarted && !desktopStarted && comparerEmpty
      ensures ledState == LedUnknown && clipboardClient == None && clipboardRequestors == []
      ensures dlpRegion == region
    {
      blockCounter := 0;
      frameTimerStarted := false;
      frameTimerMs := 0;
      desktopStarted := false;
      comparerEmpty := true;
      ledState := LedUnknown;
      clipboardClient := None;
      clipboardRequestors := [];
      dlpRegion := region;
    }

    /** stopFrameClock() */
    method StopFrameClock()
      modifies this
      ensures !frameTimerStarted
      ensures blockCounter == old(blockCounter) && frameTimerMs == old(frameTimerMs)
      ensures desktopStarted == old(desktopStarted) && comparerEmpty == old(comparerEmpty)
      ensures ledState == old(ledState) && clipboardClient == old(clipboardClient)
      ensures clipboardRequestors == old(clipboardRequestors) && dlpRegion == old(dlpRegion)
    {
      frameTimerStarted := false;
    }

    /** startFrameClock(): nothing when the clock runs, updates are blocked
        or the desktop has not started; otherwise the clock starts with half
        a frame period (FrameRate is a parameter, taken as positive). */
    method StartFrameClock(frameRate: int)
      requires frameRate > 0
      modifies this
      ensures var idle := old(frameTimerStarted) || blockCounter > 0 || !desktopStarted;
        && (idle ==> frameTimerStarted == old(frameTimerStarted) && frameTimerMs == old(frameTimerMs))
        && (!idle ==> frameTimerStarted && frameTimerMs == 1000 / frameRate / 2)
      ensures old(Valid()) ==> Valid()
      ensures blockCounter == old(blockCounter)
      ensures desktopStarted == old(desktopStarted) && comparerEmpty == old(comparerEmpty)
      ensures ledState == old(ledState) && clipboardClient == old(clipboardClient)
      ensures clipboardRequestors == old(clipboardRequestors) && dlpRegion == old(dlpRegion)
    {
      if frameTimerStarted {
        return;
      }
      if blockCounter > 0 {
        return;
      }
      if !desktopStarted {
        return;
      }
      frameTimerStarted := true;
      frameTimerMs := 1000 / frameRate / 2;
    }

    /** blockUpdates(): one more block, and the clock stops. */
    method BlockUpdates()
      modifies this
      ensures blockCounter == old(blockCounter) + 1 && !frameTimerStarted
      ensures Valid()
      ensures frameTimerMs == old(frameTimerMs)
      ensures desktopStarted == old(desktopStarted) && comparerEmpty == old(comparerEmpty)
      ensures ledState == old(ledState) && clipboardClient == old(clipboardClient)
      ensures clipboardRequestors == old(clipboardRequestors) && dlpRegion == old(dlpRegion)
    {
      blockCounter := blockCounter + 1;
      StopFrameClock();
    }

    /** unblockUpdates(): the code asserts a block is held; when the last
        block goes and changes are pending, the clock is started. */
    method UnblockUpdates(frameRate: int)
      requires blockCounter > 0 && frameRate > 0
      requires Valid()
      modifies this
      ensures blockCounter == old(blockCounter) - 1
      ensures Valid()
      ensures frameTimerStarted <==> blockCounter == 0 && !comparerEmpty && desktopStarted
      ensures frameTimerStarted ==> frameTimerMs == 1000 / frameRate / 2
      ensures !frameTimerStarted ==> frameTimerMs == old(frameTimerMs)
      ensures desktopStarted == old(desktopStarted) && comparerEmpty == old(comparerEmpty)
      ensures ledState == old(ledState) && clipboardClient == old(clipboardClient)
      ensures clipboardRequestors == old(clipboardRequestors) && dlpRegion == old(dlpRegion)
    {
      blockCounter := blockCounter - 1;
      if blockCounter == 0 {
        if !comparerEmpty {
          StartFrameClock(frameRate);
        }
      }
    }

    /** getComparerState(): CompareFB 0 never compares, any value other
        than 2 always does, and 2 (auto) compares when some client wants it
        (wants[i] is client i's own getComparerState()). */
    method GetComparerState(compareFB: int, wants: seq<bool>) returns (r: bool)
      ensures r <==> compareFB != 0 && (compareFB != 2 || true in wants)
    {
      if compareFB == 0 {
        return false;
      }
      if compareFB != 2 {
        return true;
      }
      var i := 0;
      while i < |wants|
        invariant 0 <= i <= |wants|
        invariant true !in wants[..i]
      {
        if wants[i] {
          return true;
        }
        assert wants[..i + 1] == wants[..i] + [wants[i]];
        i := i + 1;
      }
      assert wants[..i] == wants;
      return false;
    }

    /** setLEDState(state): an unchanged state does nothing; otherwise it
        is stored and every client, in order, is told. */
    method SetLEDState(state: int, clients: seq<ClientId>) returns (told: seq<ClientId>)
      modifies this
      ensures ledState == state
      ensures told == if old(ledState) == state then [] else clients
      ensures blockCounter == old(blockCounter) && frameTimerStarted == old(frameTimerStarted)
      ensures frameTimerMs == old(frameTimerMs)
      ensures desktopStarted == old(desktopStarted) && comparerEmpty == old(comparerEmpty)
      ensures clipboardClient == old(clipboardClient)
      ensures clipboardRequestors == old(clipboardRequestors) && dlpRegion == old(dlpRegion)
    {
      told := [];
      if state == ledState {
        return;
      }
      ledState := state;
      var i := 0;
      while i < |clients|
        invariant 0 <= i <= |clients|
        invariant told == clients[..i]
      {
        told := told + [clients[i]];
        assert clients[..i + 1] == clients[..i] + [clients[i]];
        i := i + 1;
      }
      assert clients[..i] == clients;
    }

    /** handleClipboardRequest(client): the requestor is queued, and the
        desktop is asked only for the first outstanding request. */
    method HandleClipboardRequest(client: ClientId) returns (askDesktop: bool)
      modifies this
      ensures clipboardRequestors == old(clipboardRequestors) + [client]
      ensures askDesktop <==> old(clipboardRequestors) == []
      ensures blockCounter == old(blockCounter) && frameTimerStarted == old(frameTimerStarted)
      ensures frameTimerMs == old(frameTimerMs) && ledState == old(ledState)
      ensures desktopStarted == old(desktopStarted) && comparerEmpty == old(comparerEmpty)
      ensures clipboardClient == old(clipboardClient) && dlpRegion == old(dlpRegion)
    {
      clipboardRequestors := clipboardRequestors + [client];
      askDesktop := |clipboardRequestors| == 1;
    }

    /** handleClipboardAnnounce(client, available): the new owner, and what
        the desktop is told (None when the call returns early). */
    method HandleClipboardAnnounce(client: ClientId, available: bool) returns (told: Option<bool>)
      modifies this
      ensures clipboardClient == Announced(old(clipboardClient), client, available)
      ensures told == if !available && old(clipboardClient) != Some(client) then None else Some(available)
      ensures blockCounter == old(blockCounter) && frameTimerStarted == old(frameTimerStarted)
      ensures frameTimerMs == old(frameTimerMs) && ledState == old(ledState)
      ensures desktopStarted == old(desktopStarted) && comparerEmpty == old(comparerEmpty)
      ensures clipboardRequestors == old(clipboardRequestors) && dlpRegion == old(dlpRegion)
    {
      if available {
        clipboardClient := Some(client);
      } else {
        if Some(client) != clipboardClient {
          return None;
        }
        clipboardClient := None;
      }
      told := Some(available);
    }

    /** handleClipboardData(client, data): passed to the desktop only when
        it comes from the owner. */
    method HandleClipboardData(client: ClientId, data: seq<byte>) returns (forwarded: Option<seq<byte>>)
      ensures forwarded == if clipboardClient == Some(client) then Some(data) else None
    {
      if Some(client) != clipboardClient {
        return None;
      }
      return Some(data);
    }
  }

  // ---- clipboard ownership over a run of announcements ----

  /** The owner after one announcement. */
  function Announced(owner: Option<ClientId>, client: ClientId, available: bool): (r: Option<ClientId>)
    ensures available ==> r == Some(client)
    ensures !available && owner == Some(client) ==> r == None
    ensures !available && owner != Some(client) ==> r == owner
  {
    if available then Some(client)
    else if owner == Some(client) then None
    else owner
  }

  /** One announcement: which client, and whether it has data. */
  datatype Announcement = Announcement(client: ClientId, available: bool)

  /** The owner after a run of announcements, from no owner. */
  function OwnerAfter(evs: seq<Announcement>): Option<ClientId>
  {
    if |evs| == 0 then None
    else Announced(OwnerAfter(evs[..|evs| - 1]), evs[|evs| - 1].client, evs[|evs| - 1].available)
  }

  /** Client c's announcement i had data and nothing after it either
      brought data or came from c. */
  predicate StillOwns(evs: seq<Announcement>, c: ClientId, i: int)
  {
    && 0 <= i < |evs| && evs[i] == Announcement(c, true)
    && forall j :: i < j < |evs| ==> !evs[j].available && evs[j].client != c
  }

  /** A client owns the clipboard exactly when it made an announcement
      with data after which no one announced data and it did not withdraw;
      other clients' withdrawals leave the owner in place. */
  lemma {:induction false} OwnerIsLastAnnouncer(evs: seq<Announcement>, c: ClientId)
    ensures OwnerAfter(evs) == Some(c) <==> exists i :: StillOwns(evs, c, i)
  {
    if |evs| > 0 {
      var pre := evs[..|evs| - 1];
      var e := evs[|evs| - 1];
      OwnerIsLastAnnouncer(pre, c);
      if OwnerAfter(evs) == Some(c) {
        if e.available {
          assert StillOwns(evs, c, |evs| - 1);
        } else {
          assert OwnerAfter(pre) == Some(c);
          var i :| StillOwns(pre, c, i);
          assert StillOwns(evs, c, i);
        }
      }
      if i :| StillOwns(evs, c, i) {
        if i < |evs| - 1 {
          assert StillOwns(pre, c, i);
        }
      }
    }
  }
}
