/** The DLP watermark: a greyscale picture (a PNG image or a rendered text)
    of 4-bit levels, validated from the server settings at start-up, then
    placed once or tiled over a frame the size of the screen, packed two
    pixels to a byte and handed to zlib for the clients. */
module Watermark {
  import opened Bytes
  import opened Wrappers
  import VncServerSt

  type i16 = x: int | -0x8000 <= x < 0x8000

  /** The frame buffer holds up to MAXW x MAXH pixels. */
  const MaxW := 4096
  const MaxH := 4096

  // ---------------------------------------------------------------------
  // 4-bit levels
  // ---------------------------------------------------------------------

  /** A grey or glyph value as a 4-bit level: (v + 8) >> 4, at most 15.
      The level is the nearest multiple of 16, ties rounding up. */
  function Quantise(v: byte): (r: byte)
    ensures r <= 15
    ensures r < 15 ==> 16 * r - 8 <= v < 16 * r + 8
    ensures r == 15 ==> v >= 232
  {
    var q := (v + 8) / 16;
    if q < 16 then q else 15
  }

  /** Each level's own grey value 16 * l quantises back to l, and a larger
      grey value never gives a smaller level. */
  lemma QuantiseLevels(l: nat, v: byte, u: byte)
    requires l <= 15
    ensures Quantise(16 * l) == l
    ensures v <= u ==> Quantise(v) <= Quantise(u)
  {
  }

  // ---------------------------------------------------------------------
  // sscanf conversions of the settings
  // ---------------------------------------------------------------------

  /** One %hhu or %hd conversion from i: white space, an optional sign and
      digits, as strtol reads them; nothing when no digit is there. */
  function Conv(s: string, i: nat): (r: Option<(int, nat)>)
    requires i <= |s|
    ensures r.Some? ==> i < r.value.1 <= |s| && r.value == VncServerSt.StrToL(s, i)
    ensures r.None? ==> VncServerSt.StrToL(s, i).1 == i
  {
    var (v, e) := VncServerSt.StrToL(s, i);
    if e == i then None else Some((v, e))
  }

  /** A conversion followed by the literal ','. */
  function ConvComma(s: string, i: nat): (r: Option<(int, nat)>)
    requires i <= |s|
    ensures r.Some? ==> i < r.value.1 <= |s| && s[r.value.1 - 1] == ','
  {
    match Conv(s, i)
    case None => None
    case Some((v, e)) => if e < |s| && s[e] == ',' then Some((v, e + 1)) else None
  }

  /** A value stored through %hd: the low 16 bits, as a signed short. */
  function ToS16(v: int): (r: i16)
    ensures -0x8000 <= v < 0x8000 ==> r == v
    ensures (r - v) % 0x1_0000 == 0
  {
    (v + 0x8000) % 0x1_0000 - 0x8000
  }

  datatype Tint = Tint(r: byte, g: byte, b: byte, a: byte)

  /** sscanf(tint, "%hhu,%hhu,%hhu,%hhu") == 4: four values, each stored
      modulo 256, with the three commas between them. Each conversion
      starts where the previous literal ended. */
  function ScanTint(s: string): (r: Option<Tint>)
  {
    match ConvComma(s, 0)
    case None => None
    case Some((r, e)) => ScanGba(s[e..], ToU8(r))
  }

  /** The conversions after the red value. */
  function ScanGba(s: string, r: byte): Option<Tint>
  {
    match ConvComma(s, 0)
    case None => None
    case Some((g, e)) => ScanBa(s[e..], r, ToU8(g))
  }

  /** The conversions after the green value. */
  function ScanBa(s: string, r: byte, g: byte): Option<Tint>
  {
    match ConvComma(s, 0)
    case None => None
    case Some((b, e)) =>
      match Conv(s[e..], 0)
      case None => None
      case Some((a, _)) => Some(Tint(r, g, ToU8(b), ToU8(a)))
  }

  /** sscanf(location, "%hd,%hd") == 2. */
  function ScanLocation(s: string): (r: Option<(i16, i16)>)
  {
    match ConvComma(s, 0)
    case None => None
    case Some((x, e1)) =>
      match Conv(s[e1..], 0)
      case None => None
      case Some((y, _)) => Some((ToS16(x), ToS16(y)))
  }

  /** A value written in decimal, then a comma, converts back, and what
      follows the comma is left. */
  lemma FieldReadsBack(s: string, v: int, rest: string)
    requires s == VncServerSt.Signed(v) + [','] + rest
    ensures ConvComma(s, 0) == Some((v, |VncServerSt.Signed(v)| + 1))
    ensures s[|VncServerSt.Signed(v)| + 1..] == rest
  {
    assert s[0..] == s;
    VncServerSt.StrToLAt(s, 0, v, [','] + rest);
    assert s[|VncServerSt.Signed(v)|] == ',';
  }

  /** The last value, written in decimal to the end of the text, converts
      back. */
  lemma LastReadsBack(v: int)
    ensures Conv(VncServerSt.Signed(v), 0) == Some((v, |VncServerSt.Signed(v)|))
  {
    var s := VncServerSt.Signed(v);
    assert s[0..] == s + [];
    VncServerSt.StrToLAt(s, 0, v, []);
  }

  /** The text "r,g,b,a" of a tint, built from its last three fields. */
  function TintText(t: Tint): (r: string)
  {
    VncServerSt.Signed(t.r) + [','] + GreenOn(t)
  }

  /** "g,b,a" */
  function GreenOn(t: Tint): string
  {
    VncServerSt.Signed(t.g) + [','] + BlueOn(t)
  }

  /** "b,a" */
  function BlueOn(t: Tint): string
  {
    VncServerSt.Signed(t.b) + [','] + VncServerSt.Signed(t.a)
  }

  lemma BaReadsBack(t: Tint)
    ensures ScanBa(BlueOn(t), t.r, t.g) == Some(t)
  {
    FieldReadsBack(BlueOn(t), t.b, VncServerSt.Signed(t.a));
    LastReadsBack(t.a);
    DivModUnique(0, 0x100, t.b);
    DivModUnique(0, 0x100, t.a);
    assert ToU8(t.b) == t.b && ToU8(t.a) == t.a;
  }

  lemma GbaReadsBack(t: Tint)
    ensures ScanGba(GreenOn(t), t.r) == Some(t)
  {
    var s := GreenOn(t);
    FieldReadsBack(s, t.g, BlueOn(t));
    var e := |VncServerSt.Signed(t.g)| + 1;
    DivModUnique(0, 0x100, t.g);
    assert ToU8(t.g) == t.g;
    BaReadsBack(t);
    assert ScanGba(s, t.r) == ScanBa(s[e..], t.r, t.g);
  }

  /** A tint written as four decimal values reads back as itself. */
  lemma TintReadsBack(t: Tint)
    ensures ScanTint(TintText(t)) == Some(t)
  {
    var s := TintText(t);
    FieldReadsBack(s, t.r, GreenOn(t));
    var e := |VncServerSt.Signed(t.r)| + 1;
    DivModUnique(0, 0x100, t.r);
    assert ToU8(t.r) == t.r;
    GbaReadsBack(t);
    assert ScanTint(s) == ScanGba(s[e..], t.r);
  }

  /** The text "x,y" of a location. */
  function LocationText(x: i16, y: i16): string
  {
    VncServerSt.Signed(x) + "," + VncServerSt.Signed(y)
  }

  /** A location written as two decimal values reads back as itself. */
  lemma LocationReadsBack(x: i16, y: i16)
    ensures ScanLocation(LocationText(x, y)) == Some((x, y))
  {
    var s := LocationText(x, y);
    assert s == VncServerSt.Signed(x) + [','] + VncServerSt.Signed(y);
    FieldReadsBack(s, x, VncServerSt.Signed(y));
    LastReadsBack(y);
  }

  // ---------------------------------------------------------------------
  // watermarkInit
  // ---------------------------------------------------------------------

  /** The DLP_Watermark* server settings watermarkInit consults. A string
      setting is the text before its NUL. */
  datatype Settings = Settings(image: string, text: string, repeatSpace: int,
                               location: string, tint: string)

  /** A greyscale picture: w * h levels, row after row. */
  datatype Picture = Picture(src: seq<byte>, w: u16, h: u16)

  predicate WellFormed(p: Picture)
  {
    |p.src| == p.w * p.h && p.w >= 1 && p.h >= 1
  }

  /** watermarkInfo: the picture, its location, the repeat spacing and the
      tint. */
  datatype Info = Info(pic: Picture, x: i16, y: i16, repeat: u16, tint: Tint)

  datatype InitError =
    | ImageAndText | ImageUnreadable | TextUndrawable
    | RepeatWithLocation | InvalidTint | InvalidLocation

  /** What watermarkInit decides. `loaded` is what loadimage gives for the
      image setting and `drawn` what drawtext gives for the text setting
      (None when they fail). Ok(None) is the success without a
      watermark. */
  function InitOutcome(st: Settings, loaded: Option<Picture>, drawn: Option<Picture>): (r: Result<Option<Info>, InitError>)
    requires 0 <= st.repeatSpace <= 4096
    ensures r == Err(ImageAndText) <==> st.image != [] && st.text != []
    ensures r == Err(InvalidTint) ==> ScanTint(st.tint).None?
    ensures r == Err(InvalidLocation) ==> st.location != [] && ScanLocation(st.location).None?
  {
    if st.image == [] && st.text == [] then Ok(None)
    else if st.image != [] && st.text != [] then Err(ImageAndText)
    else if st.image != [] && loaded.None? then Err(ImageUnreadable)
    else if st.text != [] && drawn.None? then Err(TextUndrawable)
    else if st.repeatSpace != 0 && st.location != [] then Err(RepeatWithLocation)
    else if ScanTint(st.tint).None? then Err(InvalidTint)
    else if st.location != [] && ScanLocation(st.location).None? then Err(InvalidLocation)
    else
      var pic := if st.image != [] then loaded.value else drawn.value;
      var (x, y) := if st.location != [] then ScanLocation(st.location).value else (0, 0);
      Ok(Some(Info(pic, x, y, st.repeatSpace, ScanTint(st.tint).value)))
  }

  /** What an accepted configuration holds: no watermark exactly when
      neither an image nor a text is set; otherwise one of them, not both,
      its picture, the tint and location as scanned, and the repeat
      spacing. */
  lemma InitMeaning(st: Settings, loaded: Option<Picture>, drawn: Option<Picture>)
    requires 0 <= st.repeatSpace <= 4096
    ensures var r := InitOutcome(st, loaded, drawn);
      (r == Ok(None) <==> st.image == [] && st.text == []) &&
      (r.Ok? && r.value.Some? ==>
        (st.image == []) != (st.text == []) && !(st.repeatSpace != 0 && st.location != []) &&
        (if st.image != [] then loaded == Some(r.value.value.pic) else drawn == Some(r.value.value.pic)) &&
        ScanTint(st.tint) == Some(r.value.value.tint) && r.value.value.repeat == st.repeatSpace &&
        (if st.location == [] then r.value.value.x == 0 && r.value.value.y == 0
         else ScanLocation(st.location) == Some((r.value.value.x, r.value.value.y))))
  {
  }

  /** The refusals of watermarkInit: an image with a text, and a repeat
      spacing with a location, are refused; a tint or a location that is
      not well formed is refused. */
  lemma InitRefusals(st: Settings, loaded: Option<Picture>, drawn: Option<Picture>)
    requires 0 <= st.repeatSpace <= 4096
    ensures st.image != [] && st.text != [] ==> InitOutcome(st, loaded, drawn) == Err(ImageAndText)
    ensures (st.image == []) != (st.text == []) && (st.image != [] ==> loaded.Some?) && (st.text != [] ==> drawn.Some?) ==>
      (st.repeatSpace != 0 && st.location != [] ==> InitOutcome(st, loaded, drawn) == Err(RepeatWithLocation))
    ensures InitOutcome(st, loaded, drawn).Ok? && InitOutcome(st, loaded, drawn).value.Some? ==>
      ScanTint(st.tint).Some? && (st.location != [] ==> ScanLocation(st.location).Some?)
  {
  }

  /** A well-formed tint and location, with an image or a text alone,
      are accepted and stored. */
  lemma InitAccepts(st: Settings, loaded: Option<Picture>, drawn: Option<Picture>, t: Tint, x: i16, y: i16)
    requires 0 <= st.repeatSpace <= 4096
    requires (st.image == []) != (st.text == [])
    requires st.image != [] ==> loaded.Some?
    requires st.text != [] ==> drawn.Some?
    requires st.tint == TintText(t)
    requires st.location == LocationText(x, y) && st.repeatSpace == 0
    ensures InitOutcome(st, loaded, drawn).Ok? && InitOutcome(st, loaded, drawn).value.Some?
    ensures InitOutcome(st, loaded, drawn).value.value.tint == t
    ensures InitOutcome(st, loaded, drawn).value.value.x == x && InitOutcome(st, loaded, drawn).value.value.y == y
  {
    TintReadsBack(t);
    LocationReadsBack(x, y);
    assert LocationText(x, y) != [] by {
      assert |LocationText(x, y)| >= 1;
    }
  }

  // ---------------------------------------------------------------------
  // The frame: placement and repeat tiling (updateWatermark)
  // ---------------------------------------------------------------------

  lemma MulLe(a: nat, b: nat, c: nat)
    requires a <= b
    ensures a * c <= b * c
  {
  }

  /** The index of row ty, column tx of a picture. */
  function Cell(p: Picture, ty: nat, tx: nat): (k: nat)
    requires WellFormed(p) && ty < p.h && tx < p.w
    ensures k < |p.src|
  {
    MulLe(ty, p.h - 1, p.w);
    ty * p.w + tx
  }

  /** The index of row y, column x of a frame rw pixels wide. */
  function Idx(rw: nat, y: nat, x: nat): nat
  {
    y * rw + x
  }

  /** Cells of a frame: each lies in its own row's span, and rows follow
      one another. */
  lemma IdxRow(rw: nat, rh: nat, y: nat, x: nat)
    requires x < rw && y < rh
    ensures y * rw <= Idx(rw, y, x) < y * rw + rw <= rw * rh
  {
    MulLe(y + 1, rh, rw);
  }

  /** Row y of a frame ends where row y + 1 starts, within the frame. */
  lemma RowStep(rw: nat, rh: nat, y: nat)
    requires y < rh
    ensures y * rw == rw * y && rw * (y + 1) == rw * y + rw <= rw * rh
  {
    MulLe(y + 1, rh, rw);
  }

  /** Rows before y end before row y starts; rows after it start after it
      ends. */
  lemma OtherRow(rw: nat, y: nat, yy: nat, x: nat)
    requires x < rw && yy != y
    ensures Idx(rw, yy, x) < y * rw || y * rw + rw <= Idx(rw, yy, x)
  {
    if yy < y {
      MulLe(yy + 1, y, rw);
    } else {
      MulLe(y + 1, yy, rw);
    }
  }

  /** C's division of an int by 2, truncating toward zero. */
  function Half(v: int): int
  {
    if v >= 0 then v / 2 else -((-v) / 2)
  }

  /** Where a picture `size` pixels long starts on a screen axis `screen`
      pixels long, for the location coordinate p: 0 centres it, a positive
      p is the offset from the start, a negative one from the end; the
      result is stored in an int16_t and then clamped at 0. */
  function Origin(p: i16, screen: u16, size: u16): (r: int)
    ensures 0 <= r < 0x8000
    ensures p > 0 ==> r == p
    ensures p == 0 && size <= screen ==> 2 * r + size <= screen <= 2 * r + size + 1
    ensures p == 0 && size > screen ==> r == 0
    ensures p < 0 && size - p <= screen < 0x8000 ==> r + size - p == screen
    ensures p < 0 && size - p > screen && screen - size + p >= -0x8000 ==> r == 0
  {
    var raw := if p == 0 then Half(screen - size) else if p > 0 then p as int else screen - size + p;
    var s := ToS16(raw);
    if s < 0 then 0 else s
  }

  /** The level at row y, column x of a frame tiled with the picture: the
      picture repeats every w + rep columns and every h + rep rows, with
      blank gaps between the copies. */
  function TiledPixel(p: Picture, rep: nat, y: nat, x: nat): byte
    requires WellFormed(p)
  {
    var ty, tx := y % (p.h + rep), x % (p.w + rep);
    if ty < p.h && tx < p.w then p.src[Cell(p, ty, tx)] else 0
  }

  /** Adding the modulus leaves a remainder as it is. */
  lemma ModShift(v: nat, m: nat)
    requires m > 0
    ensures (v + m) % m == v % m
  {
    assert v + m == (v / m + 1) * m + v % m;
    DivModUnique(v / m + 1, m, v % m);
  }

  /** The tiling repeats with the period of a picture and its gap. */
  lemma TilePeriodic(p: Picture, rep: nat, y: nat, x: nat)
    requires WellFormed(p)
    ensures TiledPixel(p, rep, y + p.h + rep, x) == TiledPixel(p, rep, y, x)
    ensures TiledPixel(p, rep, y, x + p.w + rep) == TiledPixel(p, rep, y, x)
  {
    ModShift(y, p.h + rep);
    ModShift(x, p.w + rep);
  }

  /** The top left copy is the picture itself; the gaps are blank. */
  lemma TileShowsPicture(p: Picture, rep: nat, y: nat, x: nat)
    requires WellFormed(p)
    ensures y < p.h && x < p.w ==> TiledPixel(p, rep, y, x) == p.src[Cell(p, y, x)]
    ensures p.h <= y < p.h + rep || p.w <= x < p.w + rep ==> TiledPixel(p, rep, y, x) == 0
  {
    DivModUnique(0, p.h + rep, y % (p.h + rep));
    if y < p.h + rep {
      DivModUnique(0, p.h + rep, y);
    }
    if x < p.w + rep {
      DivModUnique(0, p.w + rep, x);
    }
  }

  /** The level at row y, column x of a frame holding the picture once,
      with its top left corner at (oy, ox). */
  function PlacedPixel(p: Picture, ox: nat, oy: nat, y: nat, x: nat): byte
    requires WellFormed(p)
  {
    if oy <= y < oy + p.h && ox <= x < ox + p.w then p.src[Cell(p, y - oy, x - ox)] else 0
  }

  /** The watermark frame of rw x rh pixels: tiled when a repeat spacing is
      set, otherwise placed once at its location. */
  function FramePixel(info: Info, rw: u16, rh: u16, y: nat, x: nat): byte
    requires WellFormed(info.pic)
  {
    if info.repeat != 0 then TiledPixel(info.pic, info.repeat, y, x)
    else PlacedPixel(info.pic, Origin(info.x, rw, info.pic.w), Origin(info.y, rh, info.pic.h), y, x)
  }

  // ---------------------------------------------------------------------
  // Nibble packing (packWatermark)
  // ---------------------------------------------------------------------

  /** 4-bit levels. */
  predicate Levels(px: seq<byte>)
  {
    forall i :: 0 <= i < |px| ==> px[i] <= 15
  }

  /** `pix[0] | (pix[1] << 4)` stored in a byte. The low level is below 16,
      so its bits and those of the shifted high one do not overlap and the
      OR is a sum; the store keeps the low 8 bits of the shift. */
  function PackPair(lo: byte, hi: byte): byte
    requires lo <= 15
  {
    lo + (hi * 16) % 0x100
  }

  /** The low nibble of a packed byte is the low level, whatever the high
      one: the shift pushes the high level's bits above bit 3. */
  lemma LowNibble(lo: byte, hi: byte)
    requires lo <= 15
    ensures PackPair(lo, hi) % 16 == lo
  {
    var q := hi % 16;
    assert hi * 16 == (hi / 16) * 0x100 + q * 16;
    DivModUnique(hi / 16, 0x100, q * 16);
    assert PackPair(lo, hi) == q * 16 + lo;
    DivModUnique(q, 16, lo);
  }

  /** Two 4-bit levels share a byte: the first in the low nibble. */
  lemma PackPairNibbles(lo: byte, hi: byte)
    requires lo <= 15 && hi <= 15
    ensures PackPair(lo, hi) % 16 == lo && PackPair(lo, hi) / 16 == hi
  {
    DivModUnique(0, 0x100, hi * 16);
    assert PackPair(lo, hi) == hi * 16 + lo;
    DivModUnique(hi, 16, lo);
  }

  /** The first d bytes packed from the levels px, two by two. */
  function Pairs(px: seq<byte>, d: nat): (r: seq<byte>)
    requires Levels(px) && 2 * d <= |px|
    ensures |r| == d
  {
    if d == 0 then [] else Pairs(px, d - 1) + [PackPair(px[2 * d - 2], px[2 * d - 1])]
  }

  /** What packWatermark leaves in watermarkTmp for the levels px: one byte
      per pair; for an odd count a last byte whose high nibble is the level
      before the last one (the value left in pix[1]), or, for a single
      level, the uninitialised `stale`. */
  function Packed(px: seq<byte>, stale: byte): (r: seq<byte>)
    requires Levels(px)
    ensures |r| == (|px| + 1) / 2
  {
    var n := |px|;
    Pairs(px, n / 2) + (if n % 2 == 1 then [PackPair(px[n - 1], if n >= 2 then px[n - 2] else stale)] else [])
  }

  /** Level k read back from packed bytes. */
  function Nibble(bs: seq<byte>, k: nat): byte
    requires k / 2 < |bs|
  {
    if k % 2 == 0 then bs[k / 2] % 16 else bs[k / 2] / 16
  }

  /** Each pair sits at its own byte. */
  lemma {:induction false} PairsAt(px: seq<byte>, d: nat, i: nat)
    requires Levels(px) && 2 * d <= |px| && i < d
    ensures Pairs(px, d)[i] == PackPair(px[2 * i], px[2 * i + 1])
  {
    if i < d - 1 {
      PairsAt(px, d - 1, i);
    }
  }

  /** Byte i of the packed levels, for a full pair. */
  lemma PackedPairAt(px: seq<byte>, stale: byte, i: nat)
    requires Levels(px) && 2 * i + 1 < |px|
    ensures i < |Packed(px, stale)| && Packed(px, stale)[i] == PackPair(px[2 * i], px[2 * i + 1])
  {
    var n := |px|;
    PairsAt(px, n / 2, i);
    assert i < |Pairs(px, n / 2)|;
  }

  /** The last packed byte of an odd count. */
  lemma PackedLastAt(px: seq<byte>, stale: byte)
    requires Levels(px) && |px| % 2 == 1
    ensures |px| / 2 < |Packed(px, stale)|
    ensures Packed(px, stale)[|px| / 2] == PackPair(px[|px| - 1], if |px| >= 2 then px[|px| - 2] else stale)
  {
    var n := |px|;
    assert |Pairs(px, n / 2)| == n / 2;
  }

  /** Packing loses no 4-bit level: every level reads back from the packed
      bytes. */
  lemma PackedNibbles(px: seq<byte>, stale: byte, k: nat)
    requires Levels(px) && k < |px|
    ensures k / 2 < |Packed(px, stale)| && Nibble(Packed(px, stale), k) == px[k]
  {
    var n, i := |px|, k / 2;
    DivModUnique(i, 2, k % 2);
    if 2 * i + 1 < n {
      PackedPairAt(px, stale, i);
      PackPairNibbles(px[2 * i], px[2 * i + 1]);
    } else {
      assert k == n - 1 && k % 2 == 0 && n % 2 == 1 && i == n / 2;
      PackedLastAt(px, stale);
      LowNibble(px[k], if n >= 2 then px[n - 2] else stale);
    }
  }

  // ---------------------------------------------------------------------
  // Drawing the frame into watermarkUnpacked
  // ---------------------------------------------------------------------

  /** memcpy(&dst[at], &src[from], len) */
  method Copy(dst: array<byte>, at: nat, src: seq<byte>, from: nat, len: nat)
    requires at + len <= dst.Length && from + len <= |src|
    modifies dst
    ensures forall k :: 0 <= k < dst.Length ==>
      dst[k] == if at <= k < at + len then src[from + (k - at)] else old(dst[k])
  {
    forall k | at <= k < at + len {
      dst[k] := src[from + (k - at)];
    }
  }

  /** memset(dst, 0, n) */
  method Clear(dst: array<byte>, n: nat)
    requires n <= dst.Length
    modifies dst
    ensures forall k :: 0 <= k < dst.Length ==> dst[k] == if k < n then 0 else old(dst[k])
  {
    forall k | 0 <= k < n {
      dst[k] := 0;
    }
  }

  /** The level at row y, column x of a frame rw pixels wide held in a. */
  function At(a: array<byte>, rw: nat, y: nat, x: nat): byte
    reads a
  {
    var k := Idx(rw, y, x);
    if k < a.Length then a[k] else 0
  }

  /** The levels of the first n bytes of an array are 4-bit. */
  ghost predicate LevelsUpTo(a: array<byte>, n: nat)
    reads a
  {
    forall k :: 0 <= k < n && k < a.Length ==> a[k] <= 15
  }

  /** Within one row of the tiling, copy number i of the picture row srcy
      starts at column i * (w + rep) and is followed by its gap. */
  lemma TileColumn(p: Picture, rep: nat, y: nat, srcy: nat, j: nat, x: nat, i: nat, xx: nat)
    requires WellFormed(p) && srcy < p.h && y == j * (p.h + rep) + srcy
    requires x == i * (p.w + rep) && x <= xx < x + p.w + rep
    ensures TiledPixel(p, rep, y, xx) == if xx - x < p.w then p.src[Cell(p, srcy, xx - x)] else 0
  {
    DivModUnique(j, p.h + rep, srcy);
    DivModUnique(i, p.w + rep, xx - x);
  }

  /** The rows between two copies of the picture are blank. */
  lemma TileGap(p: Picture, rep: nat, j: nat, yy: nat, x: nat)
    requires WellFormed(p) && j * (p.h + rep) + p.h <= yy < j * (p.h + rep) + p.h + rep
    ensures TiledPixel(p, rep, yy, x) == 0
  {
    DivModUnique(j, p.h + rep, yy - j * (p.h + rep));
  }

  /** One step of the repeat loop along a row: copy number i of picture
      row srcy goes to column x = i * (w + rep), cut at the right edge. */
  method TileCopy(a: array<byte>, rw: nat, rh: nat, y: nat, srcy: nat, p: Picture, rep: nat,
                  ghost j: nat, x: nat, ghost i: nat)
    requires WellFormed(p) && Levels(p.src) && rw * rh <= a.Length
    requires y < rh && srcy < p.h && y == j * (p.h + rep) + srcy
    requires y * rw + rw <= rw * rh && srcy * p.w + p.w <= |p.src|
    requires x < rw && x == i * (p.w + rep)
    requires forall xx :: 0 <= xx < rw ==> At(a, rw, y, xx) == if xx < x then TiledPixel(p, rep, y, xx) else 0
    requires LevelsUpTo(a, rw * rh)
    modifies a
    ensures forall xx :: 0 <= xx < rw ==> At(a, rw, y, xx) == if xx < x + p.w + rep then TiledPixel(p, rep, y, xx) else 0
    ensures forall k :: 0 <= k < a.Length && !(y * rw <= k < y * rw + rw) ==> a[k] == old(a[k])
    ensures LevelsUpTo(a, rw * rh)
  {
    var len := if x + p.w < rw then p.w else rw - x;
    Copy(a, y * rw + x, p.src, srcy * p.w, len);
    forall xx | x <= xx < rw && xx < x + p.w + rep
      ensures TiledPixel(p, rep, y, xx) == if xx < x + len then p.src[srcy * p.w + (xx - x)] else 0
    {
      TileColumn(p, rep, y, srcy, j, x, i, xx);
    }
  }

  /** One row of the repeat loop: picture row srcy is copied every w + rep
      columns, the last copy cut at the right edge. */
  method TileRow(a: array<byte>, rw: nat, rh: nat, y: nat, srcy: nat, p: Picture, rep: nat, ghost j: nat)
    requires WellFormed(p) && Levels(p.src) && rw * rh <= a.Length
    requires y < rh && srcy < p.h && y == j * (p.h + rep) + srcy
    requires forall x :: 0 <= x < rw ==> At(a, rw, y, x) == 0
    requires LevelsUpTo(a, rw * rh)
    modifies a
    ensures forall x :: 0 <= x < rw ==> At(a, rw, y, x) == TiledPixel(p, rep, y, x)
    ensures forall k :: 0 <= k < a.Length && !(y * rw <= k < y * rw + rw) ==> a[k] == old(a[k])
    ensures LevelsUpTo(a, rw * rh)
  {
    if rw == 0 {
      return;
    }
    IdxRow(rw, rh, y, 0);
    MulLe(srcy + 1, p.h, p.w);
    var x := 0;
    ghost var i := 0;
    while x < rw
      invariant x == i * (p.w + rep)
      invariant forall xx :: 0 <= xx < rw ==> At(a, rw, y, xx) == if xx < x then TiledPixel(p, rep, y, xx) else 0
      invariant forall k :: 0 <= k < a.Length && !(y * rw <= k < y * rw + rw) ==> a[k] == old(a[k])
      invariant LevelsUpTo(a, rw * rh)
    {
      TileCopy(a, rw, rh, y, srcy, p, rep, j, x, i);
      x, i := x + p.w + rep, i + 1;
    }
  }

  /** The frame holds the tiling above row y and is blank from it on. */
  ghost predicate TiledAbove(a: array<byte>, rw: nat, rh: nat, p: Picture, rep: nat, y: nat)
    requires WellFormed(p)
    reads a
  {
    forall yy, x :: 0 <= yy < rh && 0 <= x < rw ==> At(a, rw, yy, x) == if yy < y then TiledPixel(p, rep, yy, x) else 0
  }

  /** Row y of the repeat loop, leaving the other rows as they were. */
  method TileRowStep(a: array<byte>, rw: nat, rh: nat, y: nat, srcy: nat, p: Picture, rep: nat, ghost j: nat)
    requires WellFormed(p) && Levels(p.src) && rw * rh <= a.Length
    requires y < rh && srcy < p.h && y == j * (p.h + rep) + srcy
    requires TiledAbove(a, rw, rh, p, rep, y) && LevelsUpTo(a, rw * rh)
    modifies a
    ensures TiledAbove(a, rw, rh, p, rep, y + 1) && LevelsUpTo(a, rw * rh)
    ensures forall k :: rw * rh <= k < a.Length ==> a[k] == old(a[k])
  {
    TileRow(a, rw, rh, y, srcy, p, rep, j);
    forall yy, x | 0 <= yy < rh && 0 <= x < rw && yy != y
      ensures At(a, rw, yy, x) == old(At(a, rw, yy, x))
    {
      OtherRow(rw, y, yy, x);
    }
    if rw > 0 {
      IdxRow(rw, rh, y, 0);
    }
  }

  /** The repeat branch of updateWatermark: the frame, blank before, is
      tiled with the picture; row srcy of the picture goes to frame row y,
      and after the last picture row `rep` blank rows are skipped. */
  method Tile(a: array<byte>, rw: nat, rh: nat, p: Picture, rep: nat)
    requires WellFormed(p) && Levels(p.src) && rw * rh <= a.Length
    requires forall k :: 0 <= k < rw * rh ==> a[k] == 0
    modifies a
    ensures forall y, x :: 0 <= y < rh && 0 <= x < rw ==> At(a, rw, y, x) == TiledPixel(p, rep, y, x)
    ensures forall k :: rw * rh <= k < a.Length ==> a[k] == old(a[k])
    ensures LevelsUpTo(a, rw * rh)
  {
    forall yy, x | 0 <= yy < rh && 0 <= x < rw
      ensures At(a, rw, yy, x) == 0
    {
      IdxRow(rw, rh, yy, x);
    }
    var y, srcy := 0, 0;
    ghost var j := 0;
    while y < rh
      invariant srcy < p.h && y == j * (p.h + rep) + srcy
      invariant TiledAbove(a, rw, rh, p, rep, y) && LevelsUpTo(a, rw * rh)
      invariant forall k :: rw * rh <= k < a.Length ==> a[k] == old(a[k])
    {
      TileRowStep(a, rw, rh, y, srcy, p, rep, j);
      srcy := srcy + 1;
      if srcy == p.h {
        forall yy, x | y < yy <= y + rep && yy < rh && 0 <= x < rw
          ensures TiledPixel(p, rep, yy, x) == 0
        {
          TileGap(p, rep, j, yy, x);
        }
        srcy, y, j := 0, y + rep, j + 1;
      }
      y := y + 1;
    }
  }

  /** The bytes copied for one picture row placed at column ox of a frame
      rw wide: the whole row, cut at the right edge, and none when the
      picture starts past it. */
  function ClipLen(ox: nat, w: nat, rw: nat): (r: nat)
    ensures r <= w
    ensures ox < rw ==> ox + r <= rw && (r == w || ox + r == rw)
    ensures ox >= rw ==> r == 0
  {
    if ox >= rw then 0 else if ox + w < rw then w else rw - ox
  }

  /** The frame holds the placed picture above row y and is blank from it
      on. */
  ghost predicate PlacedAbove(a: array<byte>, rw: nat, rh: nat, p: Picture, ox: nat, oy: nat, y: nat)
    requires WellFormed(p)
    reads a
  {
    forall yy, x :: 0 <= yy < rh && 0 <= x < rw ==> At(a, rw, yy, x) == if yy < y then PlacedPixel(p, ox, oy, yy, x) else 0
  }

  /** Picture row ty goes to frame row oy + ty, from column ox. */
  method PlaceRow(a: array<byte>, rw: nat, rh: nat, p: Picture, ox: nat, oy: nat, ty: nat)
    requires WellFormed(p) && Levels(p.src) && rw * rh <= a.Length
    requires ty < p.h && oy + ty < rh
    requires PlacedAbove(a, rw, rh, p, ox, oy, oy + ty) && LevelsUpTo(a, rw * rh)
    modifies a
    ensures PlacedAbove(a, rw, rh, p, ox, oy, oy + ty + 1) && LevelsUpTo(a, rw * rh)
    ensures forall k :: rw * rh <= k < a.Length ==> a[k] == old(a[k])
  {
    var y := oy + ty;
    var len := ClipLen(ox, p.w, rw);
    if len == 0 {
      forall x | 0 <= x < rw
        ensures PlacedPixel(p, ox, oy, y, x) == 0
      {
      }
      return;
    }
    IdxRow(rw, rh, y, 0);
    var from := ty * p.w;
    assert from == Cell(p, ty, 0) && from + p.w <= |p.src| by {
      MulLe(ty + 1, p.h, p.w);
    }
    Copy(a, y * rw + ox, p.src, from, len);
    forall yy, x | 0 <= yy < rh && 0 <= x < rw && yy != y
      ensures At(a, rw, yy, x) == old(At(a, rw, yy, x))
    {
      OtherRow(rw, y, yy, x);
    }
    forall x | 0 <= x < rw
      ensures At(a, rw, y, x) == PlacedPixel(p, ox, oy, y, x)
    {
      if ox <= x < ox + len {
        assert Cell(p, ty, x - ox) == from + (x - ox);
      }
    }
  }

  /** The placement branch of updateWatermark: the frame, blank before,
      holds the picture once, its top left corner at (oy, ox); what falls
      outside the frame is not drawn. */
  method Place(a: array<byte>, rw: nat, rh: nat, p: Picture, ox: nat, oy: nat)
    requires WellFormed(p) && Levels(p.src) && rw * rh <= a.Length
    requires forall k :: 0 <= k < rw * rh ==> a[k] == 0
    modifies a
    ensures forall y, x :: 0 <= y < rh && 0 <= x < rw ==> At(a, rw, y, x) == PlacedPixel(p, ox, oy, y, x)
    ensures forall k :: rw * rh <= k < a.Length ==> a[k] == old(a[k])
    ensures LevelsUpTo(a, rw * rh)
  {
    forall yy, x | 0 <= yy < rh && 0 <= x < rw
      ensures At(a, rw, yy, x) == 0
    {
      IdxRow(rw, rh, yy, x);
    }
    var y := 0;
    while y < p.h
      invariant y <= p.h
      invariant PlacedAbove(a, rw, rh, p, ox, oy, oy + y) && LevelsUpTo(a, rw * rh)
      invariant forall k :: rw * rh <= k < a.Length ==> a[k] == old(a[k])
    {
      if oy + y < rh {
        PlaceRow(a, rw, rh, p, ox, oy, y);
      }
      y := y + 1;
    }
  }

  // ---------------------------------------------------------------------
  // The packing loop
  // ---------------------------------------------------------------------

  /** What the packing loop has written after k levels: the pairs so far,
      and after the last level the whole packed sequence. */
  ghost function Emitted(px: seq<byte>, k: nat, stale: byte): (r: seq<byte>)
    requires Levels(px) && k <= |px|
    ensures |r| == if k == |px| then (k + 1) / 2 else k / 2
  {
    if k == |px| then Packed(px, stale) else Pairs(px, k / 2)
  }

  /** The state of the packing loop after k levels: `cur` toggles with
      each level, pix[0] holds the level of an open pair and pix[1] the
      last level at an odd position (initially the uninitialised stale). */
  ghost predicate PackState(tmp: array<byte>, px: seq<byte>, stale: byte, k: nat, cur: nat, d: nat, pix0: byte, pix1: byte)
    reads tmp
  {
    Levels(px) && k <= |px| && cur == k % 2 &&
    d == |Emitted(px, k, stale)| && d <= tmp.Length && tmp[..d] == Emitted(px, k, stale) &&
    pix0 <= 15 && (cur == 1 ==> pix0 == px[k - 1]) &&
    pix1 == if k / 2 >= 1 then px[2 * (k / 2) - 1] else stale
  }

  /** The body of the packing loop for level k: it goes to pix[cur]; a pair
      is written when cur is 1, and at the last level. */
  method PackLevel(tmp: array<byte>, ghost px: seq<byte>, ghost stale: byte, ghost k: nat, v: byte, last: bool,
                   cur: nat, d: nat, pix0: byte, pix1: byte) returns (cur': nat, d': nat, pix0': byte, pix1': byte)
    requires PackState(tmp, px, stale, k, cur, d, pix0, pix1)
    requires k < |px| && v == px[k] && last == (k == |px| - 1) && (|px| + 1) / 2 <= tmp.Length
    modifies tmp
    ensures PackState(tmp, px, stale, k + 1, cur', d', pix0', pix1')
  {
    pix0', pix1' := pix0, pix1;
    if cur == 0 {
      pix0' := v;
    } else {
      pix1' := v;
    }
    d' := d;
    if cur == 1 || last {
      tmp[d] := PackPair(pix0', pix1');
      d' := d + 1;
    }
    cur' := 1 - cur;
  }

  /** The last cell of a frame is the last in row-major order. */
  lemma LastCell(rw: nat, rh: nat, y: nat, x: nat)
    requires y < rh && x < rw
    ensures (y == rh - 1 && x == rw - 1) <==> Idx(rw, y, x) == rw * rh - 1
  {
    IdxRow(rw, rh, y, x);
    if y < rh - 1 {
      MulLe(y + 1, rh - 1, rw);
    }
  }

  /** One row of the packing loop: the levels of row y, which start at
      position k0 = y * rw. */
  method PackRow(a: array<byte>, tmp: array<byte>, ghost px: seq<byte>, ghost stale: byte, rw: nat, rh: nat, y: nat,
                 ghost k0: nat, cur: nat, d: nat, pix0: byte, pix1: byte)
    returns (ghost k: nat, cur': nat, d': nat, pix0': byte, pix1': byte)
    requires a != tmp && rw * rh <= a.Length && px == a[..rw * rh] && (rw * rh + 1) / 2 <= tmp.Length
    requires y < rh && k0 == y * rw && k0 + rw <= rw * rh
    requires PackState(tmp, px, stale, k0, cur, d, pix0, pix1)
    modifies tmp
    ensures k == k0 + rw && PackState(tmp, px, stale, k, cur', d', pix0', pix1')
  {
    k, cur', d', pix0', pix1' := k0, cur, d, pix0, pix1;
    var x := 0;
    while x < rw
      invariant x <= rw && k == k0 + x
      invariant PackState(tmp, px, stale, k, cur', d', pix0', pix1')
    {
      var last := y == rh - 1 && x == rw - 1;
      assert last == (k == |px| - 1) by {
        LastCell(rw, rh, y, x);
      }
      assert y * rw + x == k;
      var v := a[y * rw + x];
      cur', d', pix0', pix1' := PackLevel(tmp, px, stale, k, v, last, cur', d', pix0', pix1');
      x, k := x + 1, k + 1;
    }
  }

  /** packWatermark without the compression: the rw * rh levels of the
      frame are packed two to a byte into tmp, row after row. */
  method Pack(a: array<byte>, tmp: array<byte>, rw: nat, rh: nat, stale: byte)
    requires a != tmp && rw * rh <= a.Length && (rw * rh + 1) / 2 <= tmp.Length && LevelsUpTo(a, rw * rh)
    modifies tmp
    ensures Levels(a[..rw * rh]) && tmp[..(rw * rh + 1) / 2] == Packed(a[..rw * rh], stale)
  {
    ghost var px := a[..rw * rh];
    assert Levels(px);
    var pix0: byte, pix1: byte := 0, stale;
    var cur: nat, d: nat := 0, 0;
    ghost var k := 0;
    var y := 0;
    while y < rh
      invariant y <= rh && k == rw * y
      invariant PackState(tmp, px, stale, k, cur, d, pix0, pix1)
    {
      RowStep(rw, rh, y);
      k, cur, d, pix0, pix1 := PackRow(a, tmp, px, stale, rw, rh, y, k, cur, d, pix0, pix1);
      y := y + 1;
    }
  }

  /** The body of updateWatermark after the size is taken: the frame is
      cleared, tiled or placed, and packed; the result is what compress2
      is given, the packed bytes. */
  method DrawFrame(a: array<byte>, tmp: array<byte>, rw: u16, rh: u16, info: Info, stale: byte) returns (z: seq<byte>)
    requires WellFormed(info.pic) && Levels(info.pic.src)
    requires a != tmp && rw * rh <= a.Length && (rw * rh + 1) / 2 <= tmp.Length
    modifies a, tmp
    ensures forall y, x :: 0 <= y < rh && 0 <= x < rw ==> At(a, rw, y, x) == FramePixel(info, rw, rh, y, x)
    ensures Levels(a[..rw * rh]) && z == Packed(a[..rw * rh], stale)
    ensures forall k :: 0 <= k < rw * rh ==> Nibble(z, k) == a[k]
  {
    var n := rw * rh;
    Draw(a, rw, rh, info);
    Pack(a, tmp, rw, rh, stale);
    z := tmp[..(n + 1) / 2];
    PackedAllNibbles(a[..n], stale);
  }

  /** The frame cleared, then tiled or placed. */
  method Draw(a: array<byte>, rw: u16, rh: u16, info: Info)
    requires WellFormed(info.pic) && Levels(info.pic.src) && rw * rh <= a.Length
    modifies a
    ensures forall y, x :: 0 <= y < rh && 0 <= x < rw ==> At(a, rw, y, x) == FramePixel(info, rw, rh, y, x)
    ensures LevelsUpTo(a, rw * rh)
  {
    Clear(a, rw * rh);
    if info.repeat != 0 {
      Tile(a, rw, rh, info.pic, info.repeat);
    } else {
      Place(a, rw, rh, info.pic, Origin(info.x, rw, info.pic.w), Origin(info.y, rh, info.pic.h));
    }
  }

  /** Every level reads back from the packed bytes. */
  lemma PackedAllNibbles(px: seq<byte>, stale: byte)
    requires Levels(px)
    ensures forall k :: 0 <= k < |px| ==> Nibble(Packed(px, stale), k) == px[k]
  {
    forall k | 0 <= k < |px|
      ensures Nibble(Packed(px, stale), k) == px[k]
    {
      PackedNibbles(px, stale, k);
    }
  }

  // ---------------------------------------------------------------------
  // The code as written: placement copies and the compressed length
  // ---------------------------------------------------------------------

  /** The length updateWatermark gives memcpy for a placed picture row:
      `sx + w < rw ? w : rw - sx`, with no case for a picture starting at
      or past the right edge. */
  function CopyLenAsWritten(sx: int, w: nat, rw: nat): int
  {
    if sx + w < rw then w else rw - sx
  }

  /** A location past the right edge, "5000,0" on a 1920 pixel wide
      screen, gives memcpy a negative length (a huge size_t); a location
      below the bottom, "0,5000" on a 4096 x 4096 screen, starts the rows
      past the end of watermarkUnpacked. The clipped copy writes nothing
      there. */
  lemma LocationPastEdges()
    ensures Origin(5000, 1920, 100) == 5000 && CopyLenAsWritten(5000, 100, 1920) == -3080
    ensures ClipLen(5000, 100, 1920) == 0
    ensures Origin(5000, 4096, 100) == 5000 && Idx(4096, 5000, 0) > MaxW * MaxH
  {
  }

  /** The input length packWatermark gives compress2: rw * rh / 2 + 1. */
  function ZlibLenAsWritten(n: nat): nat
  {
    n / 2 + 1
  }

  /** For an even pixel count that is one byte more than was packed, and
      for a full 4096 x 4096 frame one byte past the end of watermarkTmp;
      for an odd count it is exactly the packed length. */
  lemma ZlibLenPastPacked(n: nat, px: seq<byte>, stale: byte)
    requires Levels(px) && |px| == n
    ensures n % 2 == 0 ==> ZlibLenAsWritten(n) == |Packed(px, stale)| + 1
    ensures n % 2 == 1 ==> ZlibLenAsWritten(n) == |Packed(px, stale)|
    ensures ZlibLenAsWritten(MaxW * MaxH) == MaxW * MaxH / 2 + 1
  {
  }

  // ---------------------------------------------------------------------
  // The watermark state
  // ---------------------------------------------------------------------

  /** The watermark globals: watermarkInfo, the frame size rw x rh, the
      unpacked and packed buffers, what is handed to zlib, and the clock
      values of watermarkTextNeedsUpdate. `on` says whether watermarkData
      is allocated, that is whether a watermark is in use. */
  class Watermarker {
    var st: Settings
    var on: bool
    var info: Info
    var rw: u16
    var rh: u16
    var unpacked: array<byte>
    var tmp: array<byte>
    var zlibInput: seq<byte>
    var lastUpdate: int
    var now: int
    var sendWatermark: bool

    ghost predicate Valid()
      reads this
    {
      on ==> WellFormed(info.pic) && Levels(info.pic.src) &&
             unpacked.Length == MaxW * MaxH && tmp.Length == MaxW * MaxH / 2 && unpacked != tmp
    }

    /** The globals at program start: no watermark, no buffers. */
    constructor ()
      ensures Valid() && !on && rw == 0 && rh == 0 && !sendWatermark
    {
      st := Settings([], [], 0, [], []);
      on := false;
      info := Info(Picture([], 0, 0), 0, 0, 0, Tint(0, 0, 0, 0));
      rw, rh := 0, 0;
      unpacked := new byte[0];
      tmp := new byte[0];
      zlibInput := [];
      lastUpdate, now := 0, 0;
      sendWatermark := false;
    }

    /** watermarkInit with the settings st. `loaded` and `drawn` are what
        loadimage and drawtext produce (None when they fail), their levels
        already quantised; `clock` is time(NULL), which drawtext stores
        before it formats the text. */
    method Init(s: Settings, loaded: Option<Picture>, drawn: Option<Picture>, clock: int) returns (ok: bool)
      requires 0 <= s.repeatSpace <= 4096
      requires loaded.Some? ==> WellFormed(loaded.value) && Levels(loaded.value.src)
      requires drawn.Some? ==> WellFormed(drawn.value) && Levels(drawn.value.src)
      modifies this
      ensures Valid() && st == s && rw == 0 && rh == 0
      ensures lastUpdate == if s.image == [] && s.text != [] then clock else old(lastUpdate)
      ensures var r := InitOutcome(s, loaded, drawn);
        (ok <==> r.Ok?) && (on <==> ok && r.value.Some?) &&
        (on ==> info == r.value.value && fresh(unpacked) && fresh(tmp))
    {
      var r := InitOutcome(s, loaded, drawn);
      assert r.Ok? && r.value.Some? ==> WellFormed(r.value.value.pic) && Levels(r.value.value.pic.src) by {
        InitMeaning(s, loaded, drawn);
      }
      Install(s, r, clock);
      ok := r.Ok?;
    }

    /** The effect of watermarkInit's verdict r on the globals: the
        settings are kept, the frame size is reset, and an accepted
        watermark is stored with its two buffers allocated. */
    method Install(s: Settings, r: Result<Option<Info>, InitError>, clock: int)
      requires r.Ok? && r.value.Some? ==> WellFormed(r.value.value.pic) && Levels(r.value.value.pic.src)
      modifies this
      ensures Valid() && st == s && rw == 0 && rh == 0
      ensures lastUpdate == if s.image == [] && s.text != [] then clock else old(lastUpdate)
      ensures on <==> r.Ok? && r.value.Some?
      ensures on ==> info == r.value.value && fresh(unpacked) && fresh(tmp)
    {
      st, rw, rh, on := s, 0, 0, false;
      if s.image == [] && s.text != [] {
        lastUpdate := clock;
      }
      if r.Ok? && r.value.Some? {
        info := r.value.value;
        unpacked := new byte[MaxW * MaxH];
        tmp := new byte[MaxW * MaxH / 2];
        on := true;
      }
    }

    /** The text holds a time format and the second has changed since it
        was last drawn. */
    predicate NeedsRedraw()
      reads this
    {
      now != lastUpdate && '%' in st.text
    }

    /** watermarkTextNeedsUpdate(early): the early call of a frame takes
        the time. */
    method TextNeedsUpdate(early: bool, clock: int) returns (b: bool)
      modifies this`now
      ensures now == if early then clock else old(now)
      ensures b == NeedsRedraw()
    {
      if early {
        now := clock;
      }
      b := now != lastUpdate && '%' in st.text;
    }

    /** updateWatermark has nothing to do: the frame size is the same and
        the picture cannot have changed. */
    predicate Current(width: u16, height: u16)
      reads this
    {
      rw == width && rh == height && (st.image != [] || !NeedsRedraw())
    }

    /** Draws the frame for a screen of width x height from the current
        picture, packs it and marks it for sending. */
    method Render(width: u16, height: u16, stale: byte)
      requires Valid() && on && width * height <= MaxW * MaxH
      modifies unpacked, tmp, this`zlibInput, this`rw, this`rh, this`sendWatermark
      ensures rw == width && rh == height && sendWatermark
      ensures forall y, x :: 0 <= y < rh && 0 <= x < rw ==> At(unpacked, rw, y, x) == FramePixel(info, rw, rh, y, x)
      ensures Levels(unpacked[..rw * rh]) && zlibInput == Packed(unpacked[..rw * rh], stale)
      ensures forall k :: 0 <= k < rw * rh ==> Nibble(zlibInput, k) == unpacked[k]
    {
      rw, rh := width, height;
      zlibInput := DrawFrame(unpacked, tmp, rw, rh, info, stale);
      sendWatermark := true;
    }

    /** The text part of updateWatermark: a text whose time format may
        read differently is drawn again (`redrawn`, None when strftime
        fails) and the time of the drawing is kept. */
    method RedrawText(clock: int, redrawn: Option<Picture>)
      requires Valid() && on
      requires redrawn.Some? ==> WellFormed(redrawn.value) && Levels(redrawn.value.src)
      modifies this`lastUpdate, this`info, this`now
      ensures Valid() && now == old(now)
      ensures lastUpdate == (if st.text != [] && old(NeedsRedraw()) then clock else old(lastUpdate))
      ensures info == (if st.text != [] && old(NeedsRedraw()) && redrawn.Some? then old(info).(pic := redrawn.value) else old(info))
    {
      var need := TextNeedsUpdate(false, clock);
      if st.text != [] && need {
        lastUpdate := clock;
        if redrawn.Some? {
          info := info.(pic := redrawn.value);
        }
      }
    }

    /** updateWatermark for a screen of width x height: when the size has
        changed or the text needs it, the text is drawn again (`redrawn`,
        None when strftime fails), and the frame is drawn, packed and
        marked for sending. `stale` is the uninitialised pix[1]. */
    method Update(width: u16, height: u16, clock: int, redrawn: Option<Picture>, stale: byte)
      requires Valid() && on && width * height <= MaxW * MaxH
      requires redrawn.Some? ==> WellFormed(redrawn.value) && Levels(redrawn.value.src)
      modifies this, unpacked, tmp
      ensures Valid() && on && st == old(st) && unpacked == old(unpacked) && tmp == old(tmp)
      ensures old(Current(width, height)) ==> unchanged(this) && unchanged(unpacked) && unchanged(tmp)
      ensures !old(Current(width, height)) ==>
        rw == width && rh == height && sendWatermark &&
        lastUpdate == (if st.text != [] && old(NeedsRedraw()) then clock else old(lastUpdate)) &&
        info == (if st.text != [] && old(NeedsRedraw()) && redrawn.Some? then old(info).(pic := redrawn.value) else old(info))
      ensures !old(Current(width, height)) ==>
        forall y, x :: 0 <= y < rh && 0 <= x < rw ==> At(unpacked, rw, y, x) == FramePixel(info, rw, rh, y, x)
      ensures !old(Current(width, height)) ==>
        Levels(unpacked[..rw * rh]) && zlibInput == Packed(unpacked[..rw * rh], stale) &&
        forall k :: 0 <= k < rw * rh ==> Nibble(zlibInput, k) == unpacked[k]
    {
      if rw == width && rh == height {
        if st.image != [] {
          return;
        }
        var need := TextNeedsUpdate(false, clock);
        if !need {
          return;
        }
      }
      RedrawText(clock, redrawn);
      Render(width, height, stale);
    }
  }
}
