/** The encode manager's decisions: how a changed rectangle is split into
    sub-rectangles and how many the update announces, which encoder serves
    each kind of rectangle, the kind a rectangle is given from its palette,
    the dynamic quality tracking, and the maximum video resolution. The
    encoders themselves, the pixel analysis and the scaling are not part
    of this model; what they find is given as parameters. */
module EncodeManager {
  import opened Bytes
  import opened Wrappers
  import opened Geometry

  // ---- splitting into sub-rectangles ----

  const SubRectMaxArea := 65536
  const SubRectMaxWidth := 2048

  function Min(a: int, b: int): int { if a < b then a else b }

  /** The test of computeNumRects and writeRects: a rectangle below the
      maximum area and width, or any rectangle in video mode without WebP,
      is sent whole. */
  predicate NoSplit(r: Rect, videoDetected: bool, webpSupported: bool)
  {
    (r.Width() * r.Height() < SubRectMaxArea && r.Width() < SubRectMaxWidth)
    || (videoDetected && !webpSupported)
  }

  /** The tile width sw: the rectangle's width up to SubRectMaxWidth. */
  function TileWidth(w: int): int
  {
    if w <= SubRectMaxWidth then w else SubRectMaxWidth
  }

  /** The tiles of one band [y0, y1), left to right from x, each sw wide
      and the last one cut at brx. */
  function Row(x: int, brx: int, y0: int, y1: int, sw: int): seq<Rect>
    requires sw > 0
    decreases brx - x
  {
    if x >= brx then [] else [Rect(x, y0, Min(x + sw, brx), y1)] + Row(x + sw, brx, y0, y1, sw)
  }

  /** The bands of r from y down, each sh high and the last one cut at
      r's bottom. */
  function Bands(r: Rect, y: int, sw: int, sh: int): seq<Rect>
    requires sw > 0 && sh > 0
    decreases r.bry - y
  {
    if y >= r.bry then [] else Row(r.tlx, r.brx, y, Min(y + sh, r.bry), sw) + Bands(r, y + sh, sw, sh)
  }

  /** The sub-rectangles writeRects makes of one rectangle. */
  function Split(r: Rect, videoDetected: bool, webpSupported: bool): seq<Rect>
    requires r.Valid()
  {
    if NoSplit(r, videoDetected, webpSupported) then [r]
    else
      var sw := TileWidth(r.Width());
      TileHeight(sw);
      Bands(r, r.tly, sw, SubRectMaxArea / sw)
  }

  /** The sub-rectangles of a list of rectangles, in order. */
  function SplitAll(rs: seq<Rect>, videoDetected: bool, webpSupported: bool): seq<Rect>
    requires AllValid(rs)
  {
    if rs == [] then []
    else SplitAll(rs[..|rs| - 1], videoDetected, webpSupported) + Split(rs[|rs| - 1], videoDetected, webpSupported)
  }

  /** The rectangles writeRects works on: in video mode the whole screen
      instead of the changed ones. */
  function WrittenRects(rs: seq<Rect>, screen: Rect, videoDetected: bool): seq<Rect>
  {
    if videoDetected then [screen] else rs
  }

  /** The count computeNumRects gives one rectangle. */
  function NumRectsOf(r: Rect, videoDetected: bool, webpSupported: bool): int
    requires !r.IsEmpty()
  {
    if NoSplit(r, videoDetected, webpSupported) then 1
    else
      var sw := TileWidth(r.Width());
      TileHeight(sw);
      var sh := SubRectMaxArea / sw;
      ((r.Width() - 1) / sw + 1) * ((r.Height() - 1) / sh + 1)
  }

  predicate AllValid(rs: seq<Rect>)
  {
    forall i :: 0 <= i < |rs| ==> rs[i].Valid()
  }

  predicate AllNonEmpty(rs: seq<Rect>)
  {
    forall i :: 0 <= i < |rs| ==> !rs[i].IsEmpty()
  }

  /** computeNumRects over a list of rectangles (a Region's are never
      empty). */
  function CountAll(rs: seq<Rect>, videoDetected: bool, webpSupported: bool): int
    requires AllNonEmpty(rs)
  {
    if rs == [] then 0
    else CountAll(rs[..|rs| - 1], videoDetected, webpSupported) + NumRectsOf(rs[|rs| - 1], videoDetected, webpSupported)
  }

  /** ceil(n / d) by counting steps. */
  function CeilSteps(n: int, d: int): nat
    requires d > 0
    decreases n
  {
    if n <= 0 then 0 else 1 + CeilSteps(n - d, d)
  }

  lemma {:induction false} MulStep(a: int, b: int, d: int)
    requires a < b && d > 0
    ensures a * d + d <= b * d
    decreases b - a
  {
    assert b * d == (b - 1) * d + d;
    if a < b - 1 {
      MulStep(a, b - 1, d);
    }
  }

  lemma MulMono(a: int, b: int, c: int)
    requires 0 <= a <= b && c >= 0
    ensures a * c <= b * c
  {
    if a < b && c > 0 {
      MulStep(a, b, c);
    }
  }

  /** A tile at most sw wide and sh high has at most the area sw*sh. */
  lemma TileArea(t: Rect, sw: int, sh: int)
    requires !t.IsEmpty() && t.Width() <= sw && t.Height() <= sh
    ensures t.Area() <= sw * sh
  {
    MulMono(t.Width(), sw, t.Height());
    MulMono(t.Height(), sh, sw);
  }

  /** n / d is the q with q*d <= n < q*d + d. */
  lemma DivUnique(n: int, d: int, q: int)
    requires d > 0 && q * d <= n < q * d + d
    ensures n / d == q
  {
    var q', m' := n / d, n % d;
    assert n == q' * d + m' && 0 <= m' < d;
    if q' < q {
      MulStep(q', q, d);
      assert false;
    } else if q' > q {
      MulStep(q, q', d);
      assert false;
    }
  }

  lemma DivStep(a: int, d: int)
    requires a >= 0 && d > 0
    ensures (a + d) / d == a / d + 1
  {
    var q, m := a / d, a % d;
    assert a == q * d + m && 0 <= m < d;
    assert (q + 1) * d == q * d + d;
    DivUnique(a + d, d, q + 1);
  }

  /** The tile height sh = SubRectMaxArea / sw is at least 32, and sw*sh
      stays within SubRectMaxArea. */
  lemma TileHeight(sw: int)
    requires 0 < sw <= SubRectMaxWidth
    ensures 32 <= SubRectMaxArea / sw && sw * (SubRectMaxArea / sw) <= SubRectMaxArea
  {
    var q, m := SubRectMaxArea / sw, SubRectMaxArea % sw;
    assert SubRectMaxArea == q * sw + m && 0 <= m < sw;
    if q < 32 {
      MulStep(q, 32, sw);
      assert false;
    }
  }

  /** The step count is the ceil formula of computeNumRects. */
  lemma {:induction false} CeilStepsFormula(n: int, d: int)
    requires n >= 1 && d > 0
    ensures CeilSteps(n, d) == (n - 1) / d + 1
    decreases n
  {
    if n <= d {
      assert 0 <= n - 1 < d;
    } else {
      CeilStepsFormula(n - d, d);
      DivStep(n - d - 1, d);
    }
  }

  lemma {:induction false} RowCount(x: int, brx: int, y0: int, y1: int, sw: int)
    requires sw > 0
    ensures |Row(x, brx, y0, y1, sw)| == CeilSteps(brx - x, sw)
    decreases brx - x
  {
    if x < brx {
      RowCount(x + sw, brx, y0, y1, sw);
    }
  }

  lemma {:induction false} BandsCount(r: Rect, y: int, sw: int, sh: int)
    requires sw > 0 && sh > 0
    ensures |Bands(r, y, sw, sh)| == CeilSteps(r.bry - y, sh) * CeilSteps(r.Width(), sw)
    decreases r.bry - y
  {
    if y < r.bry {
      RowCount(r.tlx, r.brx, y, Min(y + sh, r.bry), sw);
      BandsCount(r, y + sh, sw, sh);
      var c := CeilSteps(r.Width(), sw);
      assert CeilSteps(r.bry - y, sh) == 1 + CeilSteps(r.bry - y - sh, sh);
      assert (1 + CeilSteps(r.bry - y - sh, sh)) * c == c + CeilSteps(r.bry - (y + sh), sh) * c;
    }
  }

  /** The split makes exactly as many sub-rectangles as computeNumRects
      counts for a non-empty rectangle. */
  lemma SplitCount(r: Rect, videoDetected: bool, webpSupported: bool)
    requires !r.IsEmpty()
    ensures |Split(r, videoDetected, webpSupported)| == NumRectsOf(r, videoDetected, webpSupported)
  {
    if !NoSplit(r, videoDetected, webpSupported) {
      var sw := TileWidth(r.Width());
      var sh := SubRectMaxArea / sw;
      assert sh >= 32;
      BandsCount(r, r.tly, sw, sh);
      CeilStepsFormula(r.Width(), sw);
      CeilStepsFormula(r.bry - r.tly, sh);
    }
  }

  /** Over a list, the count computeNumRects gives is the number of
      sub-rectangles the splitting writes. */
  lemma {:induction false} CountAllSplit(rs: seq<Rect>, videoDetected: bool, webpSupported: bool)
    requires AllNonEmpty(rs)
    ensures CountAll(rs, videoDetected, webpSupported) == |SplitAll(rs, videoDetected, webpSupported)|
  {
    if rs != [] {
      var init := rs[..|rs| - 1];
      assert AllNonEmpty(init) by {
        forall i | 0 <= i < |init| ensures !init[i].IsEmpty() { assert init[i] == rs[i]; }
      }
      CountAllSplit(init, videoDetected, webpSupported);
      SplitCount(rs[|rs| - 1], videoDetected, webpSupported);
    }
  }

  // ---- the tiles: inside the rectangle, bounded, in row-major order, covering ----

  /** a comes before b in row-major order, without overlap: a lies in an
      earlier band, or in the same band and to the left. */
  predicate Before(a: Rect, b: Rect)
  {
    a.bry <= b.tly || (a.tly == b.tly && a.bry == b.bry && a.brx <= b.tlx)
  }

  predicate RowMajor(ts: seq<Rect>)
  {
    forall i, j :: 0 <= i < j < |ts| ==> Before(ts[i], ts[j])
  }

  /** Every tile lies within x..brx and y..bry, is not empty and is at most
      sw wide and sh high. */
  predicate TilesWithin(ts: seq<Rect>, x: int, y: int, brx: int, bry: int, sw: int, sh: int)
  {
    forall i :: 0 <= i < |ts| ==>
      x <= ts[i].tlx < ts[i].brx <= brx && y <= ts[i].tly < ts[i].bry <= bry
      && ts[i].Width() <= sw && ts[i].Height() <= sh
  }

  /** Some tile holds the pixel. */
  predicate Covered(ts: seq<Rect>, px: int, py: int)
  {
    exists i :: 0 <= i < |ts| && ts[i].Contains(px, py)
  }

  lemma {:induction false} RowShape(x: int, brx: int, y0: int, y1: int, sw: int)
    requires sw > 0 && y0 < y1
    ensures TilesWithin(Row(x, brx, y0, y1, sw), x, y0, brx, y1, sw, y1 - y0)
    ensures forall i :: 0 <= i < |Row(x, brx, y0, y1, sw)| ==>
      Row(x, brx, y0, y1, sw)[i].tly == y0 && Row(x, brx, y0, y1, sw)[i].bry == y1
    ensures RowMajor(Row(x, brx, y0, y1, sw))
    decreases brx - x
  {
    if x < brx {
      var ts, rest := Row(x, brx, y0, y1, sw), Row(x + sw, brx, y0, y1, sw);
      var t := Rect(x, y0, Min(x + sw, brx), y1);
      assert ts == [t] + rest;
      RowShape(x + sw, brx, y0, y1, sw);
      forall i | 0 <= i < |ts|
        ensures x <= ts[i].tlx < ts[i].brx <= brx && y0 <= ts[i].tly < ts[i].bry <= y1
        ensures ts[i].Width() <= sw && ts[i].Height() <= y1 - y0
        ensures ts[i].tly == y0 && ts[i].bry == y1
      {
        if i > 0 { assert ts[i] == rest[i - 1]; }
      }
      forall i, j | 0 <= i < j < |ts| ensures Before(ts[i], ts[j])
      {
        assert ts[j] == rest[j - 1];
        if i > 0 { assert ts[i] == rest[i - 1]; }
      }
    }
  }

  lemma {:induction false} BandsShape(r: Rect, y: int, sw: int, sh: int)
    requires sw > 0 && sh > 0
    ensures TilesWithin(Bands(r, y, sw, sh), r.tlx, y, r.brx, r.bry, sw, sh)
    ensures RowMajor(Bands(r, y, sw, sh))
    decreases r.bry - y
  {
    if y < r.bry {
      var y1 := Min(y + sh, r.bry);
      var row, rest := Row(r.tlx, r.brx, y, y1, sw), Bands(r, y + sh, sw, sh);
      RowShape(r.tlx, r.brx, y, y1, sw);
      BandsShape(r, y + sh, sw, sh);
      assert Bands(r, y, sw, sh) == row + rest;
      forall i, j | 0 <= i < |row| <= j < |row + rest|
        ensures Before((row + rest)[i], (row + rest)[j])
      {
        assert (row + rest)[j] == rest[j - |row|];
      }
    }
  }

  lemma {:induction false} RowCovers(x: int, brx: int, y0: int, y1: int, sw: int, px: int, py: int)
    requires sw > 0 && x <= px < brx && y0 <= py < y1
    ensures Covered(Row(x, brx, y0, y1, sw), px, py)
    decreases brx - x
  {
    var ts := Row(x, brx, y0, y1, sw);
    if px < x + sw {
      assert ts[0].Contains(px, py);
    } else {
      RowCovers(x + sw, brx, y0, y1, sw, px, py);
      var i :| 0 <= i < |ts| - 1 && ts[1..][i].Contains(px, py);
      assert ts[i + 1].Contains(px, py);
    }
  }

  lemma {:induction false} BandsCover(r: Rect, y: int, sw: int, sh: int, px: int, py: int)
    requires sw > 0 && sh > 0 && r.tlx <= px < r.brx && y <= py < r.bry
    ensures Covered(Bands(r, y, sw, sh), px, py)
    decreases r.bry - y
  {
    var row := Row(r.tlx, r.brx, y, Min(y + sh, r.bry), sw);
    var rest := Bands(r, y + sh, sw, sh);
    assert Bands(r, y, sw, sh) == row + rest;
    if py < y + sh {
      RowCovers(r.tlx, r.brx, y, Min(y + sh, r.bry), sw, px, py);
      var i :| 0 <= i < |row| && row[i].Contains(px, py);
      assert (row + rest)[i] == row[i];
    } else {
      BandsCover(r, y + sh, sw, sh, px, py);
      var i :| 0 <= i < |rest| && rest[i].Contains(px, py);
      assert (row + rest)[|row| + i] == rest[i];
    }
  }

  /** The split of a rectangle that is too large: every tile lies inside
      it, is at most SubRectMaxWidth wide and at most SubRectMaxArea in
      area; the tiles come in row-major order without overlapping, and
      together they cover every pixel of the rectangle. */
  lemma SplitTiles(r: Rect, videoDetected: bool, webpSupported: bool, px: int, py: int)
    requires !NoSplit(r, videoDetected, webpSupported) && !r.IsEmpty()
    ensures var ts := Split(r, videoDetected, webpSupported);
      && (forall i :: 0 <= i < |ts| ==>
            ts[i].EnclosedBy(r) && !ts[i].IsEmpty()
            && ts[i].Width() <= SubRectMaxWidth && ts[i].Area() <= SubRectMaxArea)
      && RowMajor(ts)
      && (r.Contains(px, py) ==> Covered(ts, px, py))
  {
    var sw := TileWidth(r.Width());
    var sh := SubRectMaxArea / sw;
    TileHeight(sw);
    var ts := Bands(r, r.tly, sw, sh);
    BandsShape(r, r.tly, sw, sh);
    forall i | 0 <= i < |ts| ensures ts[i].Area() <= SubRectMaxArea
    {
      TileArea(ts[i], sw, sh);
    }
    if r.Contains(px, py) {
      BandsCover(r, r.tly, sw, sh, px, py);
    }
  }

  // ---- the announced count ----

  /** doUpdate announces, for a client without LastRect, the count of the
      changed rectangles, but writeRects writes the whole screen's tiles in
      video mode: two small changed rectangles are announced as two, while
      one whole-screen rectangle is written. */
  lemma AnnouncedCountMismatch()
    ensures var rs, screen := [Rect(0, 0, 10, 10), Rect(20, 20, 30, 30)], Rect(0, 0, 1024, 768);
      && AllNonEmpty(rs)
      && CountAll(rs, true, false) == 2
      && |SplitAll(WrittenRects(rs, screen, true), true, false)| == 1
  {
    var rs, screen := [Rect(0, 0, 10, 10), Rect(20, 20, 30, 30)], Rect(0, 0, 1024, 768);
    var a, b := rs[0], rs[1];
    assert NumRectsOf(a, true, false) == 1 && NumRectsOf(b, true, false) == 1;
    assert rs[..1] == [a] && [a][..0] == [];
    assert CountAll([a], true, false) == CountAll([], true, false) + NumRectsOf(a, true, false);
    assert CountAll(rs, true, false) == CountAll([a], true, false) + NumRectsOf(b, true, false);
    assert [screen][..0] == [];
    assert Split(screen, true, false) == [screen];
  }

  /** The count of what writeRects actually writes. */
  function AnnouncedCount(rs: seq<Rect>, screen: Rect, videoDetected: bool, webpSupported: bool): int
    requires AllNonEmpty(rs) && !screen.IsEmpty()
  {
    CountAll(WrittenRects(rs, screen, videoDetected), videoDetected, webpSupported)
  }

  /** Counting the rectangles writeRects works on, the announced count is
      the number of sub-rectangles written, in video mode or not. */
  lemma AnnouncedCountMatches(rs: seq<Rect>, screen: Rect, videoDetected: bool, webpSupported: bool)
    requires AllNonEmpty(rs) && !screen.IsEmpty()
    ensures AnnouncedCount(rs, screen, videoDetected, webpSupported)
      == |SplitAll(WrittenRects(rs, screen, videoDetected), videoDetected, webpSupported)|
  {
    CountAllSplit(WrittenRects(rs, screen, videoDetected), videoDetected, webpSupported);
  }

  // ---- encoder choice ----

  datatype EncoderClass = Raw | RRE | Hextile | Tight | TightJPEG | TightWEBP | TightQOI | ZRLE

  /** The rectangle kinds, each served by one active encoder. */
  datatype EncoderType = Solid | Bitmap | BitmapRLE | Indexed | IndexedRLE | FullColour

  /** The encoder of each kind, as prepareEncoders leaves activeEncoders. */
  datatype Active = Active(solid: EncoderClass, bitmap: EncoderClass, bitmapRLE: EncoderClass,
                           indexed: EncoderClass, indexedRLE: EncoderClass, fullColour: EncoderClass)
  {
    function Of(t: EncoderType): EncoderClass
    {
      match t
      case Solid => solid
      case Bitmap => bitmap
      case BitmapRLE => bitmapRLE
      case Indexed => indexed
      case IndexedRLE => indexedRLE
      case FullColour => fullColour
    }
  }

  const EncodingRRE := 2
  const EncodingHextile := 5
  const EncodingTight := 7
  const EncodingZRLE := 16

  /** The encoder class of a preferred encoding, if it has a case. */
  function PreferredClass(preferred: int): Option<EncoderClass>
  {
    if preferred == EncodingRRE then Some(RRE)
    else if preferred == EncodingHextile then Some(Hextile)
    else if preferred == EncodingTight then Some(Tight)
    else if preferred == EncodingZRLE then Some(ZRLE)
    else None
  }

  /** The lossless-or-lossy full colour choice of the Tight family: QOI,
      then WebP and JPEG when lossy is allowed, all at 16 bits per pixel or
      more; None when none applies. */
  function TightFamily(supported: set<EncoderClass>, bpp: int, allowLossy: bool): Option<EncoderClass>
  {
    if TightQOI in supported && bpp >= 16 then Some(TightQOI)
    else if TightWEBP in supported && bpp >= 16 && allowLossy then Some(TightWEBP)
    else if TightJPEG in supported && bpp >= 16 && allowLossy then Some(TightJPEG)
    else None
  }

  /** The default for indexed (and full colour after the Tight family):
      ZRLE, then Tight, then Hextile, or Raw. */
  function IndexedDefault(supported: set<EncoderClass>): EncoderClass
  {
    if ZRLE in supported then ZRLE
    else if Tight in supported then Tight
    else if Hextile in supported then Hextile
    else Raw
  }

  /** The solid encoder: Tight, then RRE, then ZRLE, then Hextile, or Raw. */
  function SolidDefault(supported: set<EncoderClass>): EncoderClass
  {
    if Tight in supported then Tight
    else if RRE in supported then RRE
    else if ZRLE in supported then ZRLE
    else if Hextile in supported then Hextile
    else Raw
  }

  /** The slots after the switch on the preferred encoding. */
  function Wishes(preferred: int, supported: set<EncoderClass>, bpp: int, allowLossy: bool): Active
  {
    var raw := Active(Raw, Raw, Raw, Raw, Raw, Raw);
    if preferred == EncodingRRE then raw.(bitmapRLE := RRE, indexedRLE := RRE)
    else if preferred == EncodingHextile then raw.(bitmapRLE := Hextile, indexedRLE := Hextile, fullColour := Hextile)
    else if preferred == EncodingTight then
      var fc := match TightFamily(supported, bpp, allowLossy) case Some(c) => c case None => Tight;
      Active(Raw, Tight, Tight, Tight, Tight, fc)
    else if preferred == EncodingZRLE then Active(Raw, ZRLE, ZRLE, ZRLE, ZRLE, ZRLE)
    else raw
  }

  /** JPEG is the only encoder that can send grey, so grey subsampling
      with JPEG available and lossy allowed gives every slot to it. */
  predicate GreyForced(grey: bool, supported: set<EncoderClass>, allowLossy: bool)
  {
    grey && TightJPEG in supported && allowLossy
  }

  /** prepareEncoders(allowLossy): the wishes, the unassigned slots filled
      from their defaults, then the grey override. `supported` holds the
      encoders whose isSupported() holds for the client. */
  function Prepared(preferred: int, supported: set<EncoderClass>, bpp: int, allowLossy: bool, grey: bool): Active
  {
    var w := Wishes(preferred, supported, bpp, allowLossy);
    var fullColour :=
      if w.fullColour != Raw then w.fullColour
      else match TightFamily(supported, bpp, allowLossy)
        case Some(c) => c
        case None => IndexedDefault(supported);
    var indexed := if w.indexed != Raw then w.indexed else IndexedDefault(supported);
    var indexedRLE := if w.indexedRLE != Raw then w.indexedRLE else indexed;
    var bitmap := if w.bitmap != Raw then w.bitmap else indexed;
    var bitmapRLE := if w.bitmapRLE != Raw then w.bitmapRLE else bitmap;
    var solid := SolidDefault(supported);
    if GreyForced(grey, supported, allowLossy) then Active(TightJPEG, TightJPEG, TightJPEG, TightJPEG, TightJPEG, TightJPEG)
    else Active(solid, bitmap, bitmapRLE, indexed, indexedRLE, fullColour)
  }

  /** Without a preferred encoding of its own, indexedRLE and bitmap take
      the indexed encoder and bitmapRLE takes bitmap's. */
  lemma DefaultChains(preferred: int, supported: set<EncoderClass>, bpp: int, allowLossy: bool, grey: bool)
    requires PreferredClass(preferred).None?
    ensures var a := Prepared(preferred, supported, bpp, allowLossy, grey);
      a.indexedRLE == a.indexed && a.bitmap == a.indexed && a.bitmapRLE == a.bitmap
  {
  }

  /** The solid encoder is the first supported one of Tight, RRE, ZRLE and
      Hextile, whatever the preferred encoding, unless grey is forced. */
  lemma SolidOrder(preferred: int, supported: set<EncoderClass>, bpp: int, allowLossy: bool, grey: bool)
    requires !GreyForced(grey, supported, allowLossy)
    ensures var s := Prepared(preferred, supported, bpp, allowLossy, grey).solid;
      && (Tight in supported ==> s == Tight)
      && (Tight !in supported && RRE in supported ==> s == RRE)
      && (Tight !in supported && RRE !in supported && ZRLE in supported ==> s == ZRLE)
      && (Tight !in supported && RRE !in supported && ZRLE !in supported && Hextile in supported ==> s == Hextile)
      && (s == Raw <==> Tight !in supported && RRE !in supported && ZRLE !in supported && Hextile !in supported)
  {
  }

  /** With Tight preferred, full colour goes to QOI, else WebP, else JPEG
      (lossy ones only when lossy is allowed, all at 16 bits per pixel or
      more), else Tight itself; the other four non-solid slots are Tight. */
  lemma TightFullColour(supported: set<EncoderClass>, bpp: int, allowLossy: bool, grey: bool)
    requires !GreyForced(grey, supported, allowLossy)
    ensures var a := Prepared(EncodingTight, supported, bpp, allowLossy, grey);
      && a.bitmap == Tight && a.bitmapRLE == Tight && a.indexed == Tight && a.indexedRLE == Tight
      && (TightQOI in supported && bpp >= 16 ==> a.fullColour == TightQOI)
      && (a.fullColour == TightWEBP <==> TightQOI !in supported && TightWEBP in supported && bpp >= 16 && allowLossy)
      && (a.fullColour == TightJPEG ==> TightJPEG in supported && bpp >= 16 && allowLossy)
      && (a.fullColour == Tight <==> (bpp < 16 || (TightQOI !in supported
            && (!allowLossy || (TightWEBP !in supported && TightJPEG !in supported)))))
  {
  }

  /** Grey subsampling with JPEG available and lossy allowed sends every
      kind of rectangle with JPEG. */
  lemma GreyAllJpeg(preferred: int, supported: set<EncoderClass>, bpp: int, allowLossy: bool, grey: bool, t: EncoderType)
    requires GreyForced(grey, supported, allowLossy)
    ensures Prepared(preferred, supported, bpp, allowLossy, grey).Of(t) == TightJPEG
  {
  }

  /** When lossy encoding is not allowed, no kind of rectangle goes to
      JPEG or WebP. */
  lemma LosslessSlots(preferred: int, supported: set<EncoderClass>, bpp: int, grey: bool, t: EncoderType)
    ensures Prepared(preferred, supported, bpp, false, grey).Of(t) !in {TightJPEG, TightWEBP}
  {
  }

  /** When the preferred encoding is one the client supports (it comes
      from the client's own list), every slot holds an encoder the client
      supports, or Raw. */
  lemma SlotsSupported(preferred: int, supported: set<EncoderClass>, bpp: int, allowLossy: bool, grey: bool, t: EncoderType)
    requires PreferredClass(preferred).Some? ==> PreferredClass(preferred).value in supported
    ensures var c := Prepared(preferred, supported, bpp, allowLossy, grey).Of(t);
      c == Raw || c in supported
  {
  }

  // ---- the kind of a rectangle ----

  /** getEncoderType's choice from the analysis: the palette size (zero
      when analyseRect gave up and the palette was cleared) and the RLE
      run count; a scaled buffer or a QOI client always gets full colour. */
  function TypeOf(paletteSize: nat, rleRuns: int, area: int, scaled: bool, supportsQOI: bool): (r: EncoderType)
    ensures scaled || supportsQOI ==> r == FullColour
    ensures !scaled && !supportsQOI ==>
      && (r == FullColour <==> paletteSize == 0)
      && (r == Solid <==> paletteSize == 1)
      && (r in {Bitmap, BitmapRLE} <==> paletteSize == 2)
      && (r in {Indexed, IndexedRLE} <==> paletteSize >= 3)
      && (r in {BitmapRLE, IndexedRLE} <==> paletteSize >= 2 && rleRuns <= area * 2)
  {
    var useRLE := rleRuns <= area * 2;
    var t :=
      if paletteSize == 0 then FullColour
      else if paletteSize == 1 then Solid
      else if paletteSize == 2 then (if useRLE then BitmapRLE else Bitmap)
      else (if useRLE then IndexedRLE else Indexed);
    if scaled || supportsQOI then FullColour else t
  }

  // ---- dynamic quality tracking ----

  const ScoreIncrement := 32

  /** A tracked area: when it was last seen (in ms), its rectangle and
      its score. */
  datatype QualityInfo = QualityInfo(lastUpdate: int, rect: Rect, score: nat)

  function Abs(x: int): nat { if x < 0 then -x else x }

  /** closeEnough(unioned, unionArea, check, checkArea) */
  predicate CloseEnough(unioned: Rect, unionArea: int, check: Rect, checkArea: int)
  {
    Abs(unioned.tlx - check.tlx) <= 32 && Abs(unioned.tly - check.tly) <= 32
    && Abs(unionArea - checkArea) <= 4096
  }

  /** The test trackRectQuality and getQuality apply between the
      rectangle looked for and a tracked one. */
  predicate Matches(rect: Rect, cur: Rect)
  {
    var unioned := cur.UnionBoundary(rect);
    rect.EnclosedBy(cur) || cur.EnclosedBy(rect)
    || CloseEnough(unioned, unioned.Area(), cur, cur.Area())
    || CloseEnough(unioned, unioned.Area(), rect, rect.Area())
  }

  /** A rectangle matches itself. */
  lemma MatchesSelf(rect: Rect)
    ensures Matches(rect, rect)
  {
    assert rect.EnclosedBy(rect);
  }

  /** The first tracked entry the rectangle matches. */
  function FirstMatch(q: seq<QualityInfo>, rect: Rect): (r: Option<nat>)
    ensures r.Some? ==> (r.value < |q| && Matches(rect, q[r.value].rect)
      && forall j :: 0 <= j < r.value ==> !Matches(rect, q[j].rect))
    ensures r.None? <==> forall j :: 0 <= j < |q| ==> !Matches(rect, q[j].rect)
  {
    if q == [] then None
    else if Matches(rect, q[0].rect) then Some(0)
    else match FirstMatch(q[1..], rect)
      case Some(i) => Some(i + 1)
      case None => None
  }

  /** trackRectQuality(rect) at time now. */
  function Track(q: seq<QualityInfo>, rect: Rect, now: int): seq<QualityInfo>
  {
    match FirstMatch(q, rect)
    case Some(i) =>
      var cur := q[i];
      q[i := QualityInfo(now, if rect.Area() > cur.rect.Area() then rect else cur.rect, cur.score + ScoreIncrement)]
    case None => q + [QualityInfo(now, rect, 0)]
  }

  /** Tracking updates only the first matching entry: it is seen now, its
      score grows by 32 and it keeps the larger of the two rectangles;
      without a match a new entry with score 0 goes at the end. */
  lemma TrackEffect(q: seq<QualityInfo>, rect: Rect, now: int)
    ensures var r := Track(q, rect, now);
      match FirstMatch(q, rect)
      case Some(i) =>
        && |r| == |q| && (forall j :: 0 <= j < |q| && j != i ==> r[j] == q[j])
        && r[i].lastUpdate == now && r[i].score == q[i].score + ScoreIncrement
        && r[i].rect in {rect, q[i].rect}
        && r[i].rect.Area() >= rect.Area() && r[i].rect.Area() >= q[i].rect.Area()
      case None => r == q + [QualityInfo(now, rect, 0)]
  {
  }

  /** After tracking a rectangle, looking it up finds the entry just
      tracked, so getQuality's not-found answer is never taken for it. */
  lemma TrackThenFind(q: seq<QualityInfo>, rect: Rect, now: int)
    ensures var r := Track(q, rect, now);
      match FirstMatch(q, rect)
      case Some(i) => FirstMatch(r, rect) == Some(i)
      case None => FirstMatch(r, rect) == Some(|q|)
  {
    MatchesSelf(rect);
    var r := Track(q, rect, now);
    var m := FirstMatch(q, rect);
    var k := if m.Some? then m.value else |q|;
    assert k < |r| && Matches(rect, r[k].rect);
    assert forall j :: 0 <= j < k ==> r[j] == q[j];
    var found := FirstMatch(r, rect);
    if found.None? || found.value != k {
      assert false;
    }
  }

  /** Tracking a list of rectangles one after the other. */
  function TrackAll(q: seq<QualityInfo>, rs: seq<Rect>, now: int): seq<QualityInfo>
  {
    if rs == [] then q else Track(TrackAll(q, rs[..|rs| - 1], now), rs[|rs| - 1], now)
  }

  /** An entry survives updateQualities when it was seen at most 5000 ms
      ago (msBetween is the difference of the two times). */
  predicate Fresh(e: QualityInfo, now: int)
  {
    now - e.lastUpdate <= 5000
  }

  /** A kept entry loses a sixteenth of its score, rounded down. */
  function Decay(e: QualityInfo): QualityInfo
  {
    e.(score := e.score - e.score / 16)
  }

  /** updateQualities() at time now. */
  function Updated(q: seq<QualityInfo>, now: int): seq<QualityInfo>
  {
    if q == [] then []
    else Updated(q[..|q| - 1], now) + (if Fresh(q[|q| - 1], now) then [Decay(q[|q| - 1])] else [])
  }

  /** updateQualities keeps exactly the fresh entries, each decayed: every
      entry left is the decay of a fresh one, every fresh one's decay is
      left, and the list does not grow. */
  lemma {:induction false} UpdatedKeepsFresh(q: seq<QualityInfo>, now: int)
    ensures |Updated(q, now)| <= |q|
    ensures forall e :: e in q && Fresh(e, now) ==> Decay(e) in Updated(q, now)
    ensures forall e' :: e' in Updated(q, now) ==> exists e :: e in q && Fresh(e, now) && e' == Decay(e)
  {
    if q != [] {
      var init, last := q[..|q| - 1], q[|q| - 1];
      UpdatedKeepsFresh(init, now);
      assert q == init + [last];
      var tail := if Fresh(last, now) then [Decay(last)] else [];
      assert Updated(q, now) == Updated(init, now) + tail;
      forall e' | e' in Updated(q, now)
        ensures exists e :: e in q && Fresh(e, now) && e' == Decay(e)
      {
        if e' in Updated(init, now) {
          var e :| e in init && Fresh(e, now) && e' == Decay(e);
          assert e in q;
        } else {
          assert e' in tail;
          assert last in q;
        }
      }
    }
  }

  /** A kept entry's new score lies between fifteen sixteenths of the
      old score and the old score, and a score below 16 stays as it is. */
  lemma DecayBounds(e: QualityInfo)
    ensures Decay(e).score <= e.score && 16 * Decay(e).score >= 15 * e.score
    ensures e.score < 16 ==> Decay(e).score == e.score
    ensures Decay(e).rect == e.rect && Decay(e).lastUpdate == e.lastUpdate
  {
  }

  /** getQuality(rect): 128 less the matched entry's score (at most 128),
      or 128 when nothing matches. */
  function Quality(q: seq<QualityInfo>, rect: Rect): (r: int)
    ensures 0 <= r <= 128
    ensures FirstMatch(q, rect).None? ==> r == 128
    ensures FirstMatch(q, rect).Some? ==>
      var s := q[FirstMatch(q, rect).value].score;
      (s >= 128 ==> r == 0) && (s < 128 ==> r + s == 128)
  {
    match FirstMatch(q, rect)
    case Some(i) => 128 - (if q[i].score > 128 then 128 else q[i].score)
    case None => 128
  }

  /** A rectangle tracked again scores 32 more, so its quality drops by
      32, down to 0. */
  lemma RetrackLowersQuality(q: seq<QualityInfo>, rect: Rect, now: int)
    requires FirstMatch(q, rect).Some?
    ensures var before, after := Quality(q, rect), Quality(Track(q, rect, now), rect);
      after == if before >= ScoreIncrement then before - ScoreIncrement else 0
  {
    TrackThenFind(q, rect, now);
  }

  /** scaledQuality: the 0..128 quality scaled into min..min+off with
      rounding, in the unsigned arithmetic of the code, then raised to 7
      when quality is preferred over bandwidth and the update may be
      larger than 2000. */
  function ScaledQuality(quality: int, off: int, min: int, preferBandwidth: bool, curMaxUpdateSize: int): nat
    requires 0 <= quality <= 128
  {
    var dynamic := ToU32(ToU32(ToU32(quality * ToU32(off)) + 64) / 128 + ToU32(min));
    if !preferBandwidth && curMaxUpdateSize > 2000 && dynamic < 7 then 7 else dynamic
  }

  /** For a range min..min+off within 0..9 nothing wraps around: the
      scaled quality is the rounded (quality * off + 64) / 128 + min,
      raised to 7 when quality is preferred. */
  lemma ScaledNoWrap(quality: int, off: int, min: int, preferBandwidth: bool, curMaxUpdateSize: int)
    requires 0 <= quality <= 128
    requires 0 <= min && 0 <= off && min + off <= 9
    ensures var d := (quality * off + 64) / 128 + min;
      ScaledQuality(quality, off, min, preferBandwidth, curMaxUpdateSize)
        == if !preferBandwidth && curMaxUpdateSize > 2000 && d < 7 then 7 else d
  {
    MulMono(quality, 128, off);
    var p := quality * off;
    U32Id(off);
    U32Id(min);
    U32Id(p);
    U32Id(p + 64);
    ScaleStep(p, off);
    U32Id((p + 64) / 128 + min);
  }

  lemma U32Id(x: int)
    requires 0 <= x < TWO32
    ensures ToU32(x) == x
  {
  }

  /** In that range the scaled quality lies within min..min+off, or is
      the raised 7. */
  lemma ScaledRange(quality: int, off: int, min: int, preferBandwidth: bool, curMaxUpdateSize: int)
    requires 0 <= quality <= 128
    requires 0 <= min && 0 <= off && min + off <= 9
    ensures var r := ScaledQuality(quality, off, min, preferBandwidth, curMaxUpdateSize);
      (min <= r <= min + off) || (r == 7 && !preferBandwidth && curMaxUpdateSize > 2000)
  {
    ScaledNoWrap(quality, off, min, preferBandwidth, curMaxUpdateSize);
    MulMono(quality, 128, off);
    MulMono(0, quality, off);
    ScaleStep(quality * off, off);
  }

  /** Full quality gives min+off and zero gives min. */
  lemma ScaledEnds(off: int, min: int, curMaxUpdateSize: int)
    requires 0 <= min && 0 <= off && min + off <= 9
    ensures ScaledQuality(128, off, min, true, curMaxUpdateSize) == min + off
    ensures ScaledQuality(0, off, min, true, curMaxUpdateSize) == min
  {
    ScaledNoWrap(128, off, min, true, curMaxUpdateSize);
    ScaledNoWrap(0, off, min, true, curMaxUpdateSize);
    DivUnique(128 * off + 64, 128, off);
    DivUnique(64, 128, 0);
  }

  /** In that range a higher quality never scales lower. */
  lemma ScaledMonotone(quality: int, quality2: int, off: int, min: int, preferBandwidth: bool, curMaxUpdateSize: int)
    requires 0 <= quality <= quality2 <= 128
    requires 0 <= min && 0 <= off && min + off <= 9
    ensures ScaledQuality(quality, off, min, preferBandwidth, curMaxUpdateSize)
      <= ScaledQuality(quality2, off, min, preferBandwidth, curMaxUpdateSize)
  {
    ScaledNoWrap(quality, off, min, preferBandwidth, curMaxUpdateSize);
    ScaledNoWrap(quality2, off, min, preferBandwidth, curMaxUpdateSize);
    MulMono(quality, quality2, off);
    DivMono(quality * off + 64, quality2 * off + 64);
  }

  lemma ScaleStep(p: int, off: int)
    requires 0 <= p <= 128 * off && 0 <= off <= 9
    ensures (p + 64) / 128 <= off
  {
    DivUnique(128 * off + 64, 128, off);
    DivMono(p + 64, 128 * off + 64);
  }

  lemma DivMono(a: int, b: int)
    requires 0 <= a <= b
    ensures a / 128 <= b / 128
  {
  }

  // ---- the maximum video resolution ----

  /** updateMaxVideoRes: the values sscanf left (the parsed ones, or the
      previous ones where parsing stopped) rounded down to even, and
      1920x1080 when either is outside 16..2048. */
  function MaxVideoRes(x: int, y: int): (r: (int, int))
    requires 0 <= x < 0x1_0000 && 0 <= y < 0x1_0000
    ensures r.0 % 2 == 0 && r.1 % 2 == 0
    ensures 16 <= r.0 <= 2048 && 16 <= r.1 <= 2048
    ensures var ex, ey := x - x % 2, y - y % 2;
      (16 <= ex <= 2048 && 16 <= ey <= 2048 <==> r == (ex, ey))
  {
    var ex, ey := x - x % 2, y - y % 2;
    if ex < 16 || ex > 2048 || ey < 16 || ey > 2048 then (1920, 1080) else (ex, ey)
  }

  /** Applying the rule to its own result changes nothing. */
  lemma MaxVideoResIdempotent(x: int, y: int)
    requires 0 <= x < 0x1_0000 && 0 <= y < 0x1_0000
    ensures var r := MaxVideoRes(x, y); MaxVideoRes(r.0, r.1) == r
  {
  }

  /** Tracking a + b is tracking a, then b. */
  lemma {:induction false} TrackAllAppend(q: seq<QualityInfo>, a: seq<Rect>, b: seq<Rect>, now: int)
    ensures TrackAll(q, a + b, now) == TrackAll(TrackAll(q, a, now), b, now)
    decreases |b|
  {
    if b == [] {
      assert a + b == a;
    } else {
      var init := b[..|b| - 1];
      assert (a + b)[..|a + b| - 1] == a + init && (a + b)[|a + b| - 1] == b[|b| - 1];
      TrackAllAppend(q, a, init, now);
    }
  }

  /** Splitting one more rectangle of a list. */
  lemma SplitAllStep(rs: seq<Rect>, k: int, videoDetected: bool, webpSupported: bool)
    requires 0 <= k < |rs| && AllValid(rs)
    ensures AllValid(rs[..k]) && AllValid(rs[..k + 1])
    ensures SplitAll(rs[..k + 1], videoDetected, webpSupported)
      == SplitAll(rs[..k], videoDetected, webpSupported) + Split(rs[k], videoDetected, webpSupported)
  {
    assert rs[..k + 1][..k] == rs[..k] && rs[..k + 1][k] == rs[k];
  }

  /** Tracking one more rectangle. */
  lemma TrackAllPush(q: seq<QualityInfo>, ts: seq<Rect>, t: Rect, now: int)
    ensures TrackAll(q, ts + [t], now) == Track(TrackAll(q, ts, now), t, now)
  {
    assert (ts + [t])[..|ts|] == ts;
  }

  /** One tile taken off the front of a band. */
  lemma RowStep(before: seq<Rect>, x: int, brx: int, y0: int, y1: int, sw: int)
    requires sw > 0 && x < brx
    ensures (before + [Rect(x, y0, Min(x + sw, brx), y1)]) + Row(x + sw, brx, y0, y1, sw)
      == before + Row(x, brx, y0, y1, sw)
  {
  }

  /** One band taken off the top of a rectangle. */
  lemma BandStep(before: seq<Rect>, row: seq<Rect>, r: Rect, y: int, sw: int, sh: int)
    requires sw > 0 && sh > 0 && y < r.bry && row == Row(r.tlx, r.brx, y, Min(y + sh, r.bry), sw)
    ensures (before + row) + Bands(r, y + sh, sw, sh) == before + Bands(r, y, sw, sh)
  {
  }

  // ---- the manager's state ----

  class Manager {
    var videoDetected: bool
    var qualityList: seq<QualityInfo>
    var active: Active
    var maxVideoX: int
    var maxVideoY: int

    /** A new manager: video mode from the start when VideoTime is 0, no
        tracked areas, every slot Raw, and the maximum video resolution
        from what sscanf left in (scannedX, scannedY). */
    constructor (videoTime: int, scannedX: int, scannedY: int)
      requires 0 <= scannedX < 0x1_0000 && 0 <= scannedY < 0x1_0000
      ensures videoDetected == (videoTime == 0) && qualityList == []
      ensures active == Active(Raw, Raw, Raw, Raw, Raw, Raw)
      ensures (maxVideoX, maxVideoY) == MaxVideoRes(scannedX, scannedY)
    {
      videoDetected := videoTime == 0;
      qualityList := [];
      active := Active(Raw, Raw, Raw, Raw, Raw, Raw);
      var r := MaxVideoRes(scannedX, scannedY);
      maxVideoX, maxVideoY := r.0, r.1;
    }

    /** updateMaxVideoRes on the manager's maxVideoX and maxVideoY. */
    method UpdateMaxVideoRes(scannedX: int, scannedY: int)
      requires 0 <= scannedX < 0x1_0000 && 0 <= scannedY < 0x1_0000
      modifies this
      ensures (maxVideoX, maxVideoY) == MaxVideoRes(scannedX, scannedY)
      ensures videoDetected == old(videoDetected) && qualityList == old(qualityList) && active == old(active)
    {
      var x, y := scannedX - scannedX % 2, scannedY - scannedY % 2;
      if x < 16 || x > 2048 || y < 16 || y > 2048 {
        x, y := 1920, 1080;
      }
      maxVideoX, maxVideoY := x, y;
    }

    /** prepareEncoders(allowLossy): the new activeEncoders. */
    method PrepareEncoders(preferred: int, supported: set<EncoderClass>, bpp: int, allowLossy: bool, grey: bool)
      modifies this
      ensures active == Prepared(preferred, supported, bpp, allowLossy, grey)
      ensures videoDetected == old(videoDetected) && qualityList == old(qualityList)
      ensures maxVideoX == old(maxVideoX) && maxVideoY == old(maxVideoY)
    {
      active := Prepared(preferred, supported, bpp, allowLossy, grey);
    }

    /** computeNumRects(changed) */
    method ComputeNumRects(rects: seq<Rect>, webpSupported: bool) returns (numRects: int)
      requires AllNonEmpty(rects)
      ensures numRects == CountAll(rects, videoDetected, webpSupported)
    {
      numRects := 0;
      var i := 0;
      while i < |rects|
        invariant 0 <= i <= |rects| && AllNonEmpty(rects[..i])
        invariant numRects == CountAll(rects[..i], videoDetected, webpSupported)
      {
        var rect := rects[i];
        assert rects[..i + 1][..i] == rects[..i] && rects[..i + 1][i] == rect;
        var w, h := rect.Width(), rect.Height();
        if (w * h < SubRectMaxArea && w < SubRectMaxWidth) || (videoDetected && !webpSupported) {
          numRects := numRects + 1;
        } else {
          var sw := if w <= SubRectMaxWidth then w else SubRectMaxWidth;
          TileHeight(sw);
          var sh := SubRectMaxArea / sw;
          numRects := numRects + ((w - 1) / sw + 1) * ((h - 1) / sh + 1);
        }
        i := i + 1;
      }
      assert rects[..i] == rects;
    }

    /** trackRectQuality(rect) at time now. */
    method TrackRectQuality(rect: Rect, now: int)
      modifies this
      ensures qualityList == Track(old(qualityList), rect, now)
      ensures videoDetected == old(videoDetected) && active == old(active)
      ensures maxVideoX == old(maxVideoX) && maxVideoY == old(maxVideoY)
    {
      var searchArea := rect.Area();
      var i := 0;
      while i < |qualityList|
        invariant 0 <= i <= |qualityList|
        invariant forall j :: 0 <= j < i ==> !Matches(rect, qualityList[j].rect)
      {
        var cur := qualityList[i];
        var curArea := cur.rect.Area();
        var unioned := cur.rect.UnionBoundary(rect);
        var unionArea := unioned.Area();
        if rect.EnclosedBy(cur.rect) || cur.rect.EnclosedBy(rect)
          || CloseEnough(unioned, unionArea, cur.rect, curArea)
          || CloseEnough(unioned, unionArea, rect, searchArea)
        {
          assert FirstMatch(qualityList, rect) == Some(i);
          var kept := if searchArea > curArea then rect else cur.rect;
          qualityList := qualityList[i := QualityInfo(now, kept, cur.score + ScoreIncrement)];
          return;
        }
        i := i + 1;
      }
      qualityList := qualityList + [QualityInfo(now, rect, 0)];
    }

    /** updateQualities() at time now. */
    method UpdateQualities(now: int)
      modifies this
      ensures qualityList == Updated(old(qualityList), now)
      ensures videoDetected == old(videoDetected) && active == old(active)
      ensures maxVideoX == old(maxVideoX) && maxVideoY == old(maxVideoY)
    {
      var list := qualityList;
      var kept: seq<QualityInfo> := [];
      var i := 0;
      while i < |list|
        invariant 0 <= i <= |list|
        invariant kept == Updated(list[..i], now)
      {
        var cur := list[i];
        assert list[..i + 1][..i] == list[..i] && list[..i + 1][i] == cur;
        var since := now - cur.lastUpdate;
        if since <= 5000 {
          kept := kept + [cur.(score := cur.score - cur.score / 16)];
        }
        i := i + 1;
      }
      assert list[..i] == list;
      qualityList := kept;
    }

    /** getQuality(rect) */
    method GetQuality(rect: Rect) returns (quality: int)
      ensures quality == Quality(qualityList, rect)
    {
      var searchArea := rect.Area();
      var i := 0;
      while i < |qualityList|
        invariant 0 <= i <= |qualityList|
        invariant forall j :: 0 <= j < i ==> !Matches(rect, qualityList[j].rect)
      {
        var cur := qualityList[i];
        var curArea := cur.rect.Area();
        var unioned := cur.rect.UnionBoundary(rect);
        var unionArea := unioned.Area();
        if rect.EnclosedBy(cur.rect) || cur.rect.EnclosedBy(rect)
          || CloseEnough(unioned, unionArea, cur.rect, curArea)
          || CloseEnough(unioned, unionArea, rect, searchArea)
        {
          assert FirstMatch(qualityList, rect) == Some(i);
          var score := cur.score;
          if score > 128 {
            score := 128;
          }
          return 128 - score;
        }
        i := i + 1;
      }
      return 128;
    }

    /** One band of tiles, left to right, each one tracked as it is
        made. */
    method SplitRow(rect: Rect, y: int, bry: int, sw: int, now: int) returns (row: seq<Rect>)
      requires sw > 0
      modifies this
      ensures row == Row(rect.tlx, rect.brx, y, bry, sw)
      ensures qualityList == TrackAll(old(qualityList), row, now)
      ensures videoDetected == old(videoDetected) && active == old(active)
      ensures maxVideoX == old(maxVideoX) && maxVideoY == old(maxVideoY)
    {
      ghost var q0 := qualityList;
      row := [];
      var x := rect.tlx;
      while x < rect.brx
        invariant row + Row(x, rect.brx, y, bry, sw) == Row(rect.tlx, rect.brx, y, bry, sw)
        invariant qualityList == TrackAll(q0, row, now)
        invariant videoDetected == old(videoDetected) && active == old(active)
        invariant maxVideoX == old(maxVideoX) && maxVideoY == old(maxVideoY)
        decreases rect.brx - x
      {
        var brx := x + sw;
        if brx > rect.brx {
          brx := rect.brx;
        }
        var sr := Rect(x, y, brx, bry);
        RowStep(row, x, rect.brx, y, bry, sw);
        TrackAllPush(q0, row, sr, now);
        row := row + [sr];
        TrackRectQuality(sr, now);
        x := x + sw;
      }
    }

    /** The tiles of a rectangle too large to send whole, band by band. */
    method SplitLarge(rect: Rect, sw: int, sh: int, now: int) returns (tiles: seq<Rect>)
      requires sw > 0 && sh > 0
      modifies this
      ensures tiles == Bands(rect, rect.tly, sw, sh)
      ensures qualityList == TrackAll(old(qualityList), tiles, now)
      ensures videoDetected == old(videoDetected) && active == old(active)
      ensures maxVideoX == old(maxVideoX) && maxVideoY == old(maxVideoY)
    {
      ghost var q0 := qualityList;
      tiles := [];
      var y := rect.tly;
      while y < rect.bry
        invariant tiles + Bands(rect, y, sw, sh) == Bands(rect, rect.tly, sw, sh)
        invariant qualityList == TrackAll(q0, tiles, now)
        invariant videoDetected == old(videoDetected) && active == old(active)
        invariant maxVideoX == old(maxVideoX) && maxVideoY == old(maxVideoY)
        decreases rect.bry - y
      {
        var bry := y + sh;
        if bry > rect.bry {
          bry := rect.bry;
        }
        assert bry == Min(y + sh, rect.bry);
        var row := SplitRow(rect, y, bry, sw, now);
        TrackAllAppend(q0, tiles, row, now);
        BandStep(tiles, row, rect, y, sw, sh);
        tiles := tiles + row;
        y := y + sh;
      }
    }

    /** One rectangle of writeRects: sent whole when small enough (or in
        video mode without WebP), else tiled; every piece is tracked. */
    method SplitOne(rect: Rect, webpSupported: bool, now: int) returns (pieces: seq<Rect>)
      requires rect.Valid()
      modifies this
      ensures pieces == Split(rect, videoDetected, webpSupported)
      ensures qualityList == TrackAll(old(qualityList), pieces, now)
      ensures videoDetected == old(videoDetected) && active == old(active)
      ensures maxVideoX == old(maxVideoX) && maxVideoY == old(maxVideoY)
    {
      var w, h := rect.Width(), rect.Height();
      if (w * h < SubRectMaxArea && w < SubRectMaxWidth) || (videoDetected && !webpSupported) {
        pieces := [rect];
        TrackAllPush(qualityList, [], rect, now);
        TrackRectQuality(rect, now);
      } else {
        var sw := if w <= SubRectMaxWidth then w else SubRectMaxWidth;
        TileHeight(sw);
        var sh := SubRectMaxArea / sw;
        pieces := SplitLarge(rect, sw, sh, now);
      }
    }

    /** The splitting of writeRects: the rectangles it works on (the whole
        screen in video mode), each sent whole or tiled, with every
        sub-rectangle tracked in order. */
    method SplitRects(changed: seq<Rect>, screen: Rect, webpSupported: bool, now: int) returns (subrects: seq<Rect>)
      requires AllValid(changed) && screen.Valid()
      modifies this
      ensures subrects == SplitAll(WrittenRects(changed, screen, videoDetected), videoDetected, webpSupported)
      ensures qualityList == TrackAll(old(qualityList), subrects, now)
      ensures videoDetected == old(videoDetected) && active == old(active)
      ensures maxVideoX == old(maxVideoX) && maxVideoY == old(maxVideoY)
    {
      var rects := changed;
      if videoDetected {
        rects := [screen];
      }
      ghost var q0 := qualityList;
      subrects := [];
      var k := 0;
      while k < |rects|
        invariant 0 <= k <= |rects| && rects == WrittenRects(changed, screen, videoDetected) && AllValid(rects)
        invariant subrects == SplitAll(rects[..k], videoDetected, webpSupported)
        invariant qualityList == TrackAll(q0, subrects, now)
        invariant videoDetected == old(videoDetected) && active == old(active)
        invariant maxVideoX == old(maxVideoX) && maxVideoY == old(maxVideoY)
      {
        SplitAllStep(rects, k, videoDetected, webpSupported);
        var pieces := SplitOne(rects[k], webpSupported, now);
        TrackAllAppend(q0, subrects, pieces, now);
        subrects := subrects + pieces;
        k := k + 1;
      }
      assert rects[..k] == rects;
    }
  }
}
