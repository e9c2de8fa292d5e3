/** The QOI encoder of the Tight encoding: a rectangle of 32-bit RGBX or
    BGRX pixels becomes a QOI image whose body uses only the RUN, DIFF,
    LUMA and RGB operations, and the image goes out behind a Tight
    "compact length". The operation codes, the "qoif" magic, the 14-byte
    header, the 8-byte end marker and the 400000000-pixel limit are those
    of the QOI format. */
module TightQoi {
  import opened Bytes
  import opened Wrappers
  import opened RdrStream

  const OpDiff := 0x40
  const OpLuma := 0x80
  const OpRun := 0xC0
  const OpRgb := 0xFE
  const OpRgba := 0xFF

  const HeaderSize := 14
  const PixelsMax := 400000000
  const Magic: seq<byte> := [0x71, 0x6F, 0x69, 0x66]
  const Padding: seq<byte> := [0, 0, 0, 0, 0, 0, 0, 1]

  /** One pixel as the union reads it: the four bytes of the 32-bit word in
      memory order; the fourth is the padding byte of RGBX. */
  datatype Px = Px(r: byte, g: byte, b: byte, a: byte)

  /** The colour a decoder recovers. */
  datatype Rgb = Rgb(r: byte, g: byte, b: byte)

  function RgbOf(p: Px): Rgb
  {
    Rgb(p.r, p.g, p.b)
  }

  /** The previous pixel before the first one. */
  const Start := Px(0, 0, 0, 255)

  /** BGRX input has red and blue swapped into place. */
  function Swap(p: Px, isrgb: bool): Px
  {
    if isrgb then p else Px(p.b, p.g, p.r, p.a)
  }

  // ---- the checks before encoding ----

  /** The cases in which qoi_encode_kasm returns NULL. */
  predicate Rejected(w: u32, h: u32, channels: byte, colorspace: byte)
  {
    w == 0 || h == 0 || channels < 3 || channels > 4 || colorspace > 1 || h >= PixelsMax / w
  }

  /** The guard keeps the pixel count below the limit, so max_size fits an
      int. */
  lemma SizeFits(w: u32, h: u32, channels: byte, colorspace: byte)
    requires !Rejected(w, h, channels, colorspace)
    ensures w * h < PixelsMax
    ensures w * h * 4 + HeaderSize + |Padding| < 0x8000_0000
  {
    var q := PixelsMax / w;
    assert q * w <= PixelsMax;
    assert h <= q - 1;
    assert h * w <= (q - 1) * w;
  }

  // ---- the pixels in scan order ----

  lemma MulLe(a: nat, b: nat, c: nat)
    requires a <= b
    ensures a * c <= b * c
  {
  }

  /** The caller's promise that every row of the rectangle lies inside the
      pixel buffer. */
  predicate Covers(data: seq<Px>, w: nat, h: nat, stride: nat)
  {
    h == 0 || (h - 1) * stride + w <= |data|
  }

  lemma RowInside(data: seq<Px>, w: nat, h: nat, stride: nat, y: nat)
    requires Covers(data, w, h, stride) && y < h
    ensures 0 <= y * stride && y * stride + w <= |data|
  {
    MulLe(y, h - 1, stride);
  }

  /** The w pixels of a row starting at index row, as the encoder sees
      them. */
  function Row(data: seq<Px>, row: nat, w: nat, isrgb: bool): (r: seq<Px>)
    requires row + w <= |data|
    ensures |r| == w
  {
    seq(w, x requires 0 <= x < w => Swap(data[row + x], isrgb))
  }

  /** Rows y to h - 1, one after the other, each read at y * stride. */
  function Rows(data: seq<Px>, w: nat, h: nat, stride: nat, isrgb: bool, y: nat): (r: seq<Px>)
    requires Covers(data, w, h, stride) && y <= h
    ensures r == [] <==> y == h || w == 0
    decreases h - y
  {
    if y == h then []
    else
      RowInside(data, w, h, stride, y);
      Row(data, y * stride, w, isrgb) + Rows(data, w, h, stride, isrgb, y + 1)
  }

  /** The w * h pixels the encoder visits, in scan order. */
  function Pixels(data: seq<Px>, w: nat, h: nat, stride: nat, isrgb: bool): seq<Px>
    requires Covers(data, w, h, stride)
  {
    Rows(data, w, h, stride, isrgb, 0)
  }

  lemma {:induction false} RowsLength(data: seq<Px>, w: nat, h: nat, stride: nat, isrgb: bool, y: nat)
    requires Covers(data, w, h, stride) && y <= h
    ensures |Rows(data, w, h, stride, isrgb, y)| == (h - y) * w
    decreases h - y
  {
    if y < h {
      RowsLength(data, w, h, stride, isrgb, y + 1);
      MulSucc(h - (y + 1), w);
    }
  }

  lemma MulSucc(a: nat, b: nat)
    ensures (a + 1) * b == a * b + b
  {
  }

  /** Row y, column x of the rectangle is pixel (y - y0) * w + x of the
      scan from row y0 on. */
  lemma {:induction false} RowsIndex(data: seq<Px>, w: nat, h: nat, stride: nat, isrgb: bool, y0: nat, y: nat, x: nat)
    requires Covers(data, w, h, stride) && y0 <= y < h && x < w
    ensures y * stride + x < |data|
    ensures (y - y0) * w + x < |Rows(data, w, h, stride, isrgb, y0)|
    ensures Rows(data, w, h, stride, isrgb, y0)[(y - y0) * w + x] == Swap(data[y * stride + x], isrgb)
    decreases y - y0
  {
    RowInside(data, w, h, stride, y);
    RowInside(data, w, h, stride, y0);
    var d := y - y0;
    var first := Row(data, y0 * stride, w, isrgb);
    var rest := Rows(data, w, h, stride, isrgb, y0 + 1);
    var rs := Rows(data, w, h, stride, isrgb, y0);
    assert rs == first + rest;
    if d == 0 {
      assert d * w + x == x;
      assert rs[x] == first[x];
    } else {
      RowsIndex(data, w, h, stride, isrgb, y0 + 1, y, x);
      var j := (y - (y0 + 1)) * w + x;
      MulSucc(d - 1, w);
      assert d * w + x == w + j;
      assert rs[w + j] == rest[j];
    }
  }

  /** The scan visits the pixel at row y, column x as number y * w + x. */
  lemma PixelIndex(data: seq<Px>, w: nat, h: nat, stride: nat, isrgb: bool, y: nat, x: nat)
    requires Covers(data, w, h, stride) && y < h && x < w
    ensures |Pixels(data, w, h, stride, isrgb)| == w * h
    ensures y * w + x < w * h
    ensures Pixels(data, w, h, stride, isrgb)[y * w + x] == Swap(data[y * stride + x], isrgb)
  {
    RowsLength(data, w, h, stride, isrgb, 0);
    RowsIndex(data, w, h, stride, isrgb, 0, y, x);
  }

  // ---- the operations ----

  /** The conversion to signed char: the value modulo 256 in -128..127. */
  function SChar(x: int): (r: int)
    ensures -128 <= r < 128 && r == x - 256 * ((x + 128) / 256)
  {
    (x + 128) % 256 - 128
  }

  /** A run of 1 to 62 equal pixels. */
  function RunByte(run: nat): byte
    requires 1 <= run <= 62
  {
    OpRun + run - 1
  }

  /** The operation for a pixel that differs from the previous one: DIFF
      when every channel moved by -2..1, LUMA when green moved by -32..31
      and red and blue by -8..7 relative to it, otherwise RGB. The fields of
      an operation occupy disjoint bits, so the code's | is a sum. */
  function OpFor(prev: Px, px: Px): (r: seq<byte>)
    ensures 1 <= |r| <= 4
  {
    var vr := SChar(px.r - prev.r);
    var vg := SChar(px.g - prev.g);
    var vb := SChar(px.b - prev.b);
    var vgr := SChar(vr - vg);
    var vgb := SChar(vb - vg);
    if -3 < vr < 2 && -3 < vg < 2 && -3 < vb < 2 then
      [OpDiff + (vr + 2) * 16 + (vg + 2) * 4 + (vb + 2)]
    else if -9 < vgr < 8 && -33 < vg < 32 && -9 < vgb < 8 then
      [OpLuma + vg + 32, (vgr + 8) * 16 + (vgb + 8)]
    else
      [OpRgb, px.r, px.g, px.b]
  }

  /** What one pixel adds to the output, and the run after it. */
  datatype Emit = Emit(out: seq<byte>, run: nat)

  /** One pixel: an equal pixel lengthens the run, which is written out at
      62 and at the last pixel; a different pixel first writes out a
      pending run, then its own operation. */
  function Step(prev: Px, px: Px, run: nat, last: bool): (r: Emit)
    requires run < 62
    ensures r.run < 62
    ensures |r.out| <= 4 + (if run > 0 then 1 else 0) - (if px == prev && !last && run + 1 < 62 then 4 else 0)
    ensures px != prev || last ==> r.run == 0
  {
    if px == prev then
      if run + 1 == 62 || last then Emit([RunByte(run + 1)], 0) else Emit([], run + 1)
    else
      Emit(Flush(run) + OpFor(prev, px), 0)
  }

  /** A pending run written out before a different pixel. */
  function Flush(run: nat): (r: seq<byte>)
    requires run < 62
    ensures |r| == if run > 0 then 1 else 0
  {
    if run > 0 then [RunByte(run)] else []
  }

  /** The body for the pixels still to come, after prev and with a
      pending run; the last pixel of the rectangle flushes the run. */
  function Encoded(ps: seq<Px>, prev: Px, run: nat): seq<byte>
    requires run < 62
  {
    if ps == [] then []
    else
      var e := Step(prev, ps[0], run, |ps| == 1);
      e.out + Encoded(ps[1..], ps[0], e.run)
  }

  /** The header: magic, width and height big-endian, 3 channels, the
      colour space. */
  function Header(w: u32, h: u32, colorspace: byte): (r: seq<byte>)
    ensures |r| == HeaderSize
  {
    Magic + BE32(w) + BE32(h) + [3, colorspace]
  }

  /** The whole image qoi_encode_kasm returns. */
  function QoiImage(data: seq<Px>, w: u32, h: u32, colorspace: byte, isrgb: bool, stride: nat): seq<byte>
    requires Covers(data, w, h, stride)
  {
    Header(w, h, colorspace) + Encoded(Pixels(data, w, h, stride, isrgb), Start, 0) + Padding
  }

  // ---- properties of the body ----

  /** Each pixel costs at most four bytes, a pending run one more. */
  lemma {:induction false} EncodedBound(ps: seq<Px>, prev: Px, run: nat)
    requires run < 62
    ensures |Encoded(ps, prev, run)| <= 4 * |ps| + (if run > 0 then 1 else 0)
  {
    if ps != [] {
      var e := Step(prev, ps[0], run, |ps| == 1);
      EncodedBound(ps[1..], ps[0], e.run);
    }
  }

  /** The image fits the max_size bytes the code allocates. */
  lemma ImageFits(data: seq<Px>, w: u32, h: u32, colorspace: byte, isrgb: bool, stride: nat)
    requires Covers(data, w, h, stride)
    ensures |QoiImage(data, w, h, colorspace, isrgb, stride)| <= w * h * 4 + HeaderSize + |Padding|
  {
    var ps := Pixels(data, w, h, stride, isrgb);
    RowsLength(data, w, h, stride, isrgb, 0);
    assert |ps| == w * h;
    EncodedBound(ps, Start, 0);
    assert |Encoded(ps, Start, 0)| <= 4 * |ps|;
  }

  /** So the length the code reports fits its int. */
  lemma ImageLength(data: seq<Px>, w: u32, h: u32, colorspace: byte, isrgb: bool, stride: nat)
    requires !Rejected(w, h, 4, colorspace) && Covers(data, w, h, stride)
    ensures |QoiImage(data, w, h, colorspace, isrgb, stride)| < 0x8000_0000
  {
    SizeFits(w, h, 4, colorspace);
    ImageFits(data, w, h, colorspace, isrgb, stride);
  }

  // ---- a decoder for the operations the encoder writes ----

  function Repeat(c: Rgb, n: nat): (r: seq<Rgb>)
    ensures |r| == n
  {
    seq(n, _ => c)
  }

  /** The channel after adding d, modulo 256. */
  function AddChannel(c: byte, d: int): byte
  {
    (c + d) % 256
  }

  /** The colour a DIFF byte gives: each channel moves by its two-bit
      field minus 2. */
  function DiffColor(b: byte, prev: Rgb): Rgb
  {
    Rgb(AddChannel(prev.r, b as int / 16 % 4 - 2), AddChannel(prev.g, b as int / 4 % 4 - 2),
        AddChannel(prev.b, b as int % 4 - 2))
  }

  /** The colour two LUMA bytes give: green moves by the low six bits of
      the first minus 32, red and blue by that plus their four-bit field of
      the second minus 8. */
  function LumaColor(b0: byte, b1: byte, prev: Rgb): Rgb
  {
    var vg := b0 as int % 64 - 32;
    Rgb(AddChannel(prev.r, vg + b1 as int / 16 - 8), AddChannel(prev.g, vg),
        AddChannel(prev.b, vg + b1 as int % 16 - 8))
  }

  /** QOI decoding of RUN, DIFF, LUMA, RGB and RGBA operations from prev
      on; it stops at an INDEX operation (which includes the end marker)
      and at a truncated operation. */
  function DecodeOps(s: seq<byte>, prev: Rgb): seq<Rgb>
    decreases |s|
  {
    if s == [] then []
    else if s[0] == OpRgb then
      if |s| < 4 then [] else var c := Rgb(s[1], s[2], s[3]); [c] + DecodeOps(s[4..], c)
    else if s[0] == OpRgba then
      if |s| < 5 then [] else var c := Rgb(s[1], s[2], s[3]); [c] + DecodeOps(s[5..], c)
    else if s[0] >= OpRun then Repeat(prev, s[0] - OpRun + 1) + DecodeOps(s[1..], prev)
    else if s[0] >= OpLuma then
      if |s| < 2 then [] else var c := LumaColor(s[0], s[1], prev); [c] + DecodeOps(s[2..], c)
    else if s[0] >= OpDiff then
      var c := DiffColor(s[0], prev); [c] + DecodeOps(s[1..], c)
    else []
  }

  function Rgbs(ps: seq<Px>): (r: seq<Rgb>)
    ensures |r| == |ps|
  {
    seq(|ps|, k requires 0 <= k < |ps| => RgbOf(ps[k]))
  }

  /** A channel moved by the difference plus a multiple of 256 lands on
      the new value. */
  lemma Wrap(old_: byte, new_: byte, d: int, k: int)
    requires d == new_ - old_ + 256 * k
    ensures AddChannel(old_, d) == new_
  {
    DivModUnique(k, 256, new_);
  }

  /** The three two-bit fields of a DIFF byte read back. */
  lemma DiffFields(a: int, b: int, c: int)
    requires 0 <= a < 4 && 0 <= b < 4 && 0 <= c < 4
    ensures var x := OpDiff + a * 16 + b * 4 + c; x / 16 % 4 == a && x / 4 % 4 == b && x % 4 == c
  {
    DivModUnique(4 + a, 16, b * 4 + c);
    DivModUnique(1, 4, a);
    DivModUnique(16 + a * 4 + b, 4, c);
    DivModUnique(4 * 4 + a, 4, b);
  }

  /** The fields of the two LUMA bytes read back. */
  lemma LumaFields(g: int, a: int, b: int)
    requires 0 <= g < 64 && 0 <= a < 16 && 0 <= b < 16
    ensures (OpLuma + g) % 64 == g && (a * 16 + b) / 16 == a && (a * 16 + b) % 16 == b
  {
    DivModUnique(2, 64, g);
    DivModUnique(a, 16, b);
  }

  /** A DIFF byte for small moves gives the new colour back. */
  lemma DiffColorOf(prev: Px, px: Px, vr: int, vg: int, vb: int, kr: int, kg: int, kb: int)
    requires vr == px.r - prev.r + 256 * kr && vg == px.g - prev.g + 256 * kg && vb == px.b - prev.b + 256 * kb
    requires -3 < vr < 2 && -3 < vg < 2 && -3 < vb < 2
    ensures DiffColor(OpDiff + (vr + 2) * 16 + (vg + 2) * 4 + (vb + 2), RgbOf(prev)) == RgbOf(px)
  {
    var x := OpDiff + (vr + 2) * 16 + (vg + 2) * 4 + (vb + 2);
    DiffFields(vr + 2, vg + 2, vb + 2);
    assert DiffColor(x, RgbOf(prev)) == Rgb(AddChannel(prev.r, vr), AddChannel(prev.g, vg), AddChannel(prev.b, vb));
    Wrap(prev.r, px.r, vr, kr);
    Wrap(prev.g, px.g, vg, kg);
    Wrap(prev.b, px.b, vb, kb);
  }

  /** Two LUMA bytes for moderate moves give the new colour back: green
      moved by vg, red and blue by vg plus their own difference, each
      modulo 256. */
  lemma LumaColorOf(prev: Px, px: Px, vg: int, vgr: int, vgb: int, kr: int, kg: int, kb: int)
    requires vg + vgr == px.r - prev.r + 256 * kr && vg == px.g - prev.g + 256 * kg
    requires vg + vgb == px.b - prev.b + 256 * kb
    requires -9 < vgr < 8 && -33 < vg < 32 && -9 < vgb < 8
    ensures LumaColor(OpLuma + vg + 32, (vgr + 8) * 16 + (vgb + 8), RgbOf(prev)) == RgbOf(px)
  {
    var b0, b1 := OpLuma + vg + 32, (vgr + 8) * 16 + (vgb + 8);
    LumaFields(vg + 32, vgr + 8, vgb + 8);
    assert b0 % 64 - 32 == vg && b1 / 16 - 8 == vgr && b1 % 16 - 8 == vgb;
    assert LumaColor(b0, b1, RgbOf(prev)) == Rgb(AddChannel(prev.r, vg + vgr), AddChannel(prev.g, vg), AddChannel(prev.b, vg + vgb));
    Wrap(prev.r, px.r, vg + vgr, kr);
    Wrap(prev.g, px.g, vg, kg);
    Wrap(prev.b, px.b, vg + vgb, kb);
  }

  /** Decoding one DIFF byte. */
  lemma DecodeDiff(b: byte, rest: seq<byte>, prev: Rgb)
    requires OpDiff <= b < OpLuma
    ensures DecodeOps([b] + rest, prev) == [DiffColor(b, prev)] + DecodeOps(rest, DiffColor(b, prev))
  {
    assert ([b] + rest)[1..] == rest;
  }

  /** Decoding two LUMA bytes. */
  lemma DecodeLuma(b0: byte, b1: byte, rest: seq<byte>, prev: Rgb)
    requires OpLuma <= b0 < OpRun
    ensures DecodeOps([b0, b1] + rest, prev) == [LumaColor(b0, b1, prev)] + DecodeOps(rest, LumaColor(b0, b1, prev))
  {
    assert ([b0, b1] + rest)[2..] == rest;
  }

  /** Decoding an RGB operation. */
  lemma DecodeRgb(r: byte, g: byte, b: byte, rest: seq<byte>, prev: Rgb)
    ensures DecodeOps([OpRgb, r, g, b] + rest, prev) == [Rgb(r, g, b)] + DecodeOps(rest, Rgb(r, g, b))
  {
    assert ([OpRgb, r, g, b] + rest)[4..] == rest;
  }

  /** Decoding a RUN byte. */
  lemma DecodeRun(run: nat, rest: seq<byte>, prev: Rgb)
    requires 1 <= run <= 62
    ensures DecodeOps([RunByte(run)] + rest, prev) == Repeat(prev, run) + DecodeOps(rest, prev)
  {
    assert ([RunByte(run)] + rest)[1..] == rest;
  }

  /** A DIFF operation decodes to the pixel's colour. */
  lemma DiffOpDecodes(prev: Px, px: Px, rest: seq<byte>, vr: int, vg: int, vb: int)
    requires vr == SChar(px.r - prev.r) && vg == SChar(px.g - prev.g) && vb == SChar(px.b - prev.b)
    requires -3 < vr < 2 && -3 < vg < 2 && -3 < vb < 2
    ensures DecodeOps(OpFor(prev, px) + rest, RgbOf(prev)) == [RgbOf(px)] + DecodeOps(rest, RgbOf(px))
  {
    var b: byte := OpDiff + (vr + 2) * 16 + (vg + 2) * 4 + (vb + 2);
    assert OpFor(prev, px) == [b];
    DiffColorOf(prev, px, vr, vg, vb, -((px.r - prev.r + 128) / 256), -((px.g - prev.g + 128) / 256),
                -((px.b - prev.b + 128) / 256));
    DecodeDiff(b, rest, RgbOf(prev));
  }

  /** A LUMA operation decodes to the pixel's colour. */
  lemma LumaOpDecodes(prev: Px, px: Px, rest: seq<byte>, vr: int, vg: int, vb: int, vgr: int, vgb: int)
    requires vr == SChar(px.r - prev.r) && vg == SChar(px.g - prev.g) && vb == SChar(px.b - prev.b)
    requires vgr == SChar(vr - vg) && vgb == SChar(vb - vg)
    requires !(-3 < vr < 2 && -3 < vg < 2 && -3 < vb < 2)
    requires -9 < vgr < 8 && -33 < vg < 32 && -9 < vgb < 8
    ensures DecodeOps(OpFor(prev, px) + rest, RgbOf(prev)) == [RgbOf(px)] + DecodeOps(rest, RgbOf(px))
  {
    var b0: byte, b1: byte := OpLuma + vg + 32, (vgr + 8) * 16 + (vgb + 8);
    assert OpFor(prev, px) == [b0, b1];
    var qr, qg, qb := (px.r - prev.r + 128) / 256, (px.g - prev.g + 128) / 256, (px.b - prev.b + 128) / 256;
    var qgr, qgb := (vr - vg + 128) / 256, (vb - vg + 128) / 256;
    LumaColorOf(prev, px, vg, vgr, vgb, -qr - qgr, -qg, -qb - qgb);
    DecodeLuma(b0, b1, rest, RgbOf(prev));
  }

  /** The operation for a pixel decodes to its colour. */
  lemma OpDecodes(prev: Px, px: Px, rest: seq<byte>)
    requires px != prev
    ensures DecodeOps(OpFor(prev, px) + rest, RgbOf(prev)) == [RgbOf(px)] + DecodeOps(rest, RgbOf(px))
  {
    var vr, vg, vb := SChar(px.r - prev.r), SChar(px.g - prev.g), SChar(px.b - prev.b);
    var vgr, vgb := SChar(vr - vg), SChar(vb - vg);
    if -3 < vr < 2 && -3 < vg < 2 && -3 < vb < 2 {
      DiffOpDecodes(prev, px, rest, vr, vg, vb);
    } else if -9 < vgr < 8 && -33 < vg < 32 && -9 < vgb < 8 {
      LumaOpDecodes(prev, px, rest, vr, vg, vb, vgr, vgb);
    } else {
      assert OpFor(prev, px) == [OpRgb, px.r, px.g, px.b];
      DecodeRgb(px.r, px.g, px.b, rest, RgbOf(prev));
    }
  }

  /** A pixel equal to the previous one: the run grows, and a written
      run byte decodes to the whole run. */
  lemma SameDecodes(prev: Px, run: nat, last: bool, rest: seq<byte>, tail: seq<Rgb>)
    requires run < 62
    requires DecodeOps(rest, RgbOf(prev)) == Repeat(RgbOf(prev), Step(prev, prev, run, last).run) + tail
    ensures DecodeOps(Step(prev, prev, run, last).out + rest, RgbOf(prev)) == Repeat(RgbOf(prev), run) + ([RgbOf(prev)] + tail)
  {
    var c := RgbOf(prev);
    RepeatOneMore(c, run, tail);
    if run + 1 == 62 || last {
      assert Step(prev, prev, run, last) == Emit([RunByte(run + 1)], 0);
      assert Repeat(c, 0) + tail == tail;
      DecodeRun(run + 1, rest, c);
    } else {
      assert Step(prev, prev, run, last) == Emit([], run + 1);
      assert Step(prev, prev, run, last).out + rest == rest;
    }
  }

  lemma RepeatOneMore(c: Rgb, n: nat, tail: seq<Rgb>)
    ensures Repeat(c, n + 1) + tail == Repeat(c, n) + ([c] + tail)
  {
    assert Repeat(c, n + 1) == Repeat(c, n) + [c];
  }

  /** A pixel that differs: a pending run byte, then the pixel's
      operation. */
  lemma DifferentDecodes(prev: Px, px: Px, run: nat, last: bool, rest: seq<byte>, tail: seq<Rgb>)
    requires run < 62 && px != prev
    requires DecodeOps(rest, RgbOf(px)) == tail
    ensures DecodeOps(Step(prev, px, run, last).out + rest, RgbOf(prev)) == Repeat(RgbOf(prev), run) + ([RgbOf(px)] + tail)
  {
    var op := OpFor(prev, px);
    assert Step(prev, px, run, last).out + rest == Flush(run) + (op + rest);
    OpDecodes(prev, px, rest);
    DecodeFlush(run, op + rest, RgbOf(prev));
  }

  /** A flushed run decodes to the run. */
  lemma DecodeFlush(run: nat, s: seq<byte>, c: Rgb)
    requires run < 62
    ensures DecodeOps(Flush(run) + s, c) == Repeat(c, run) + DecodeOps(s, c)
  {
    if run > 0 {
      DecodeRun(run, s, c);
    } else {
      assert Flush(run) + s == s;
      assert Repeat(c, 0) + DecodeOps(s, c) == DecodeOps(s, c);
    }
  }

  /** What one step writes, followed by the rest of the body, decodes to
      the pending run, the pixel's colour, and what the rest holds beyond
      its own pending run. */
  lemma StepDecodes(prev: Px, px: Px, run: nat, last: bool, rest: seq<byte>, tail: seq<Rgb>)
    requires run < 62
    requires DecodeOps(rest, RgbOf(px)) == Repeat(RgbOf(px), Step(prev, px, run, last).run) + tail
    ensures DecodeOps(Step(prev, px, run, last).out + rest, RgbOf(prev)) == Repeat(RgbOf(prev), run) + ([RgbOf(px)] + tail)
  {
    if px == prev {
      SameDecodes(prev, run, last, rest, tail);
    } else {
      assert Repeat(RgbOf(px), 0) + tail == tail;
      DifferentDecodes(prev, px, run, last, rest, tail);
    }
  }

  /** Decoding the body for the pixels still to come gives the pending
      run of prev's colour, then their colours. */
  lemma {:induction false} EncodedDecodes(ps: seq<Px>, prev: Px, run: nat)
    requires run < 62 && (ps == [] ==> run == 0)
    ensures DecodeOps(Encoded(ps, prev, run), RgbOf(prev)) == Repeat(RgbOf(prev), run) + Rgbs(ps)
  {
    if ps == [] {
      assert Rgbs(ps) == [];
    } else {
      var e := Step(prev, ps[0], run, |ps| == 1);
      EncodedDecodes(ps[1..], ps[0], e.run);
      assert Rgbs(ps) == [RgbOf(ps[0])] + Rgbs(ps[1..]);
      StepDecodes(prev, ps[0], run, |ps| == 1, Encoded(ps[1..], ps[0], e.run), Rgbs(ps[1..]));
    }
  }

  /** Decoding the body of an image gives back the colours of the
      rectangle in scan order. */
  lemma ImageDecodes(data: seq<Px>, w: u32, h: u32, isrgb: bool, stride: nat)
    requires Covers(data, w, h, stride)
    ensures var ps := Pixels(data, w, h, stride, isrgb);
      DecodeOps(Encoded(ps, Start, 0), Rgb(0, 0, 0)) == Rgbs(ps)
  {
    EncodedDecodes(Pixels(data, w, h, stride, isrgb), Start, 0);
  }

  // ---- qoi_encode_kasm ----

  /** Writes s at p; the bytes before p stay as they were. */
  method Put(bytes: array<byte>, p: nat, s: seq<byte>) returns (q: nat)
    requires p + |s| <= bytes.Length
    modifies bytes
    ensures q == p + |s|
    ensures bytes[..q] == old(bytes[..p]) + s
  {
    q := p;
    for j := 0 to |s|
      invariant q == p + j
      invariant bytes[..q] == old(bytes[..p]) + s[..j]
    {
      bytes[q] := s[j];
      assert s[..j + 1] == s[..j] + [s[j]];
      q := q + 1;
    }
    assert s[..|s|] == s;
  }

  /** The operation for a pixel that differs from the previous one, as
      the code chooses and writes it. */
  method EmitOp(bytes: array<byte>, p: nat, prev: Px, px: Px) returns (q: nat)
    requires p + |OpFor(prev, px)| <= bytes.Length
    modifies bytes
    ensures q == p + |OpFor(prev, px)|
    ensures bytes[..q] == old(bytes[..p]) + OpFor(prev, px)
  {
    var vr := SChar(px.r - prev.r);
    var vg := SChar(px.g - prev.g);
    var vb := SChar(px.b - prev.b);
    var vgr := SChar(vr - vg);
    var vgb := SChar(vb - vg);
    var op: seq<byte>;
    if -3 < vr < 2 && -3 < vg < 2 && -3 < vb < 2 {
      op := [OpDiff + (vr + 2) * 16 + (vg + 2) * 4 + (vb + 2)];
    } else if -9 < vgr < 8 && -33 < vg < 32 && -9 < vgb < 8 {
      op := [OpLuma + vg + 32, (vgr + 8) * 16 + (vgb + 8)];
    } else {
      op := [OpRgb, px.r, px.g, px.b];
    }
    assert op == OpFor(prev, px);
    q := Put(bytes, p, op);
  }

  /** The body of the pixel loop for one pixel, branch by branch as the
      code writes it; what it writes and the run it leaves are Step's. */
  method EmitPixel(bytes: array<byte>, p: nat, prev: Px, px: Px, run: nat, last: bool,
                   ghost pending: seq<byte>, ghost image: seq<byte>) returns (q: nat, run': nat)
    requires run < 62 && |image| <= bytes.Length
    requires Progress(bytes, p, Step(prev, px, run, last).out + pending, image)
    modifies bytes
    ensures q == p + |Step(prev, px, run, last).out| && run' == Step(prev, px, run, last).run
    ensures bytes[..q] == old(bytes[..p]) + Step(prev, px, run, last).out
    ensures Progress(bytes, q, pending, image)
  {
    q, run' := p, run;
    if px == prev {
      run' := run' + 1;
      if run' == 62 || last {
        q := Put(bytes, q, [RunByte(run')]);
        run' := 0;
      }
    } else {
      if run' > 0 {
        q := Put(bytes, q, [RunByte(run')]);
        run' := 0;
      }
      q := EmitOp(bytes, q, prev, px);
    }
    assert bytes[..q] + pending == old(bytes[..p]) + (Step(prev, px, run, last).out + pending);
  }

  /** The first p bytes of the buffer followed by what is still to be
      written make up the image. */
  predicate Progress(bytes: array<byte>, p: nat, pending: seq<byte>, image: seq<byte>)
    reads bytes
  {
    p <= bytes.Length && bytes[..p] + pending == image
  }

  /** One pixel of a row, in terms of the body still to come. */
  lemma RowStep(cells: seq<Px>, x: nat, rest: seq<Px>, prev: Px, run: nat)
    requires x < |cells| && run < 62
    ensures var e := Step(prev, cells[x], run, |cells| - x + |rest| == 1);
      Encoded(cells[x..] + rest, prev, run) == e.out + Encoded(cells[x + 1..] + rest, cells[x], e.run)
  {
    var s := cells[x..] + rest;
    assert s[0] == cells[x];
    assert s[1..] == cells[x + 1..] + rest;
  }

  /** The inner loop of qoi_encode_kasm over one row read from index
      row on: the bytes written so far followed by the encoding of the
      pixels still to come stay the whole image. Pixel k is the first of
      the row; last is the number of the last pixel of the rectangle. */
  method EncodeRow(bytes: array<byte>, p: nat, data: seq<Px>, row: nat, w: nat, isrgb: bool,
                   prev: Px, run: nat, k: nat, last: nat, ghost rest: seq<Px>, ghost image: seq<byte>)
    returns (p': nat, prev': Px, run': nat)
    requires row + w <= |data| && 0 < w && k + w + |rest| == last + 1
    requires run < 62 && |image| <= bytes.Length
    requires Progress(bytes, p, Encoded(Row(data, row, w, isrgb) + rest, prev, run), image)
    modifies bytes
    ensures run' < 62 && (rest == [] ==> run' == 0)
    ensures Progress(bytes, p', Encoded(rest, prev', run'), image)
  {
    ghost var cells := Row(data, row, w, isrgb);
    p', prev', run' := p, prev, run;
    for x := 0 to w
      invariant run' < 62 && (x > 0 && rest == [] && x == w ==> run' == 0)
      invariant Progress(bytes, p', Encoded(cells[x..] + rest, prev', run'), image)
    {
      var px := Swap(data[row + x], isrgb);
      RowStep(cells, x, rest, prev', run');
      ghost var pending := Encoded(cells[x + 1..] + rest, px, Step(prev', px, run', k + x == last).run);
      p', run' := EmitPixel(bytes, p', prev', px, run', k + x == last, pending, image);
      prev' := px;
    }
    assert cells[w..] + rest == rest;
  }

  /** qoi_encode_kasm(data, desc, out_len, isrgb, stride): None where the
      code returns NULL, otherwise the image, written into a buffer of
      max_size bytes row by row. */
  method QoiEncodeKasm(data: seq<Px>, w: u32, h: u32, channels: byte, colorspace: byte, isrgb: bool, stride: u32)
    returns (r: Option<seq<byte>>)
    requires !Rejected(w, h, channels, colorspace) ==> Covers(data, w, h, stride)
    ensures r.None? <==> Rejected(w, h, channels, colorspace)
    ensures r.Some? ==> r.value == QoiImage(data, w, h, colorspace, isrgb, stride)
  {
    if Rejected(w, h, channels, colorspace) {
      return None;
    }
    ImageFits(data, w, h, colorspace, isrgb, stride);
    RowsLength(data, w, h, stride, isrgb, 0);
    MulLe(1, h, w);
    var pixelCount := w * h;
    var bytes := new byte[pixelCount * 4 + HeaderSize + |Padding|];
    var p := Put(bytes, 0, Header(w, h, colorspace));
    ghost var image := Header(w, h, colorspace) + Encoded(Pixels(data, w, h, stride, isrgb), Start, 0);
    assert |image| + |Padding| <= bytes.Length;
    var prev, run, k: nat := Start, 0, 0;
    var last: nat := pixelCount - 1;
    for y := 0 to h
      invariant k + |Rows(data, w, h, stride, isrgb, y)| == pixelCount
      invariant run < 62 && (y == h ==> run == 0)
      invariant Progress(bytes, p, Encoded(Rows(data, w, h, stride, isrgb, y), prev, run), image)
    {
      RowInside(data, w, h, stride, y);
      var row := y * stride;
      p, prev, run := EncodeRow(bytes, p, data, row, w, isrgb, prev, run, k, last,
                                Rows(data, w, h, stride, isrgb, y + 1), image);
      k := k + w;
    }
    assert bytes[..p] == image;
    p := Put(bytes, p, Padding);
    r := Some(bytes[..p]);
  }

  // ---- the Tight framing ----

  /** writeCompact(value): the low seven bits with a continuation bit,
      then the next seven, then the next eight; values from 2^22 on lose
      their top bits. */
  function Compact(v: u32): (r: seq<byte>)
    ensures 1 <= |r| <= 3
  {
    if v <= 0x7F then [v]
    else if v <= 0x3FFF then [v % 128 + 128, v / 128 % 128]
    else [v % 128 + 128, v / 128 % 128 + 128, v / 16384 % 256]
  }

  /** The client's reading of a compact length at the front of s. */
  function ReadCompact(s: seq<byte>): Option<(nat, nat)>
  {
    if |s| < 1 then None
    else if s[0] < 128 then Some((s[0] as nat, 1))
    else if |s| < 2 then None
    else if s[1] < 128 then Some((s[0] as nat - 128 + s[1] as nat * 128, 2))
    else if |s| < 3 then None
    else Some((s[0] as nat - 128 + (s[1] as nat - 128) * 128 + s[2] as nat * 16384, 3))
  }

  /** v in three fields: seven bits, seven bits, the rest. */
  lemma Digits(v: nat)
    ensures v / 16384 == v / 128 / 128
    ensures v == v % 128 + 128 * (v / 128 % 128) + 16384 * (v / 16384)
  {
    var q := v / 128;
    var q2 := q / 128;
    assert v == q * 128 + v % 128;
    assert q == q2 * 128 + q % 128;
    assert v == q2 * 16384 + (v % 128 + 128 * (q % 128));
    DivModUnique(q2, 16384, v % 128 + 128 * (q % 128));
  }

  /** A length below 2^22 reads back whole, whatever follows it. */
  lemma CompactRoundTrip(v: u32, rest: seq<byte>)
    requires v < 0x40_0000
    ensures ReadCompact(Compact(v) + rest) == Some((v as nat, |Compact(v)|))
  {
    if 0x7F < v <= 0x3FFF {
      DivModUnique(v / 128, 128, v % 128);
      assert (Compact(v) + rest)[..2] == [v % 128 + 128, v / 128];
    } else if 0x3FFF < v {
      Digits(v);
      var c := v / 16384;
      assert c < 256;
      DivModUnique(0, 256, c);
      assert (Compact(v) + rest)[..3] == [v % 128 + 128, v / 128 % 128 + 128, c];
    }
  }

  /** A length of 2^22 or more is read as its value modulo 2^22. */
  lemma CompactTruncates(v: u32)
    requires v >= 0x40_0000
    ensures ReadCompact(Compact(v)) == Some((v % 0x40_0000, 3))
  {
    Digits(v);
    var a, b, c := v % 128, v / 128 % 128, v / 16384 % 256;
    var top := v / 16384 / 256;
    assert v / 16384 == top * 256 + c;
    assert v == a + 128 * b + 16384 * c + 0x40_0000 * top;
    DivModUnique(top, 0x40_0000, a + 128 * b + 16384 * c);
  }

  /** writeCompact(value, os), branch by branch. */
  method WriteCompact(value: u32, os: OutStream)
    modifies os
    ensures os.data == old(os.data) + Compact(value)
  {
    var b: byte := value % 128;
    if value <= 0x7F {
      os.WriteU8(b);
    } else {
      os.WriteU8(b + 128);
      b := value / 128 % 128;
      if value <= 0x3FFF {
        os.WriteU8(b);
      } else {
        os.WriteU8(b + 128);
        os.WriteU8(value / 16384 % 256);
      }
    }
  }

  /** writeOnly(out): the subencoding byte (tightQoi, whose value is not
      part of this model, shifted into the high nibble), the compact
      length, the image. */
  method WriteOnly(subencoding: byte, out: seq<byte>, os: OutStream)
    requires subencoding < 16 && |out| < TWO32
    modifies os
    ensures os.data == old(os.data) + [subencoding * 16] + Compact(|out|) + out
  {
    os.WriteU8(subencoding * 16);
    WriteCompact(|out|, os);
    os.WriteBytes(out);
  }

  /** QOI_LINEAR, the colour space both callers announce: every channel
      linear (value 1 of the QOI format; qoi.h is not part of this model). */
  const Linear: byte := 1

  /** compressOnly: the rectangle as a QOI image with four channels in the
      linear colour space. The code goes on to copy an unset length when
      the encoder fails; the model answers None there. */
  method CompressOnly(data: seq<Px>, w: u32, h: u32, isrgb: bool, stride: u32) returns (out: Option<seq<byte>>)
    requires !Rejected(w, h, 4, Linear) ==> Covers(data, w, h, stride)
    ensures out.None? <==> w == 0 || h == 0 || h >= PixelsMax / w
    ensures out.Some? ==> out.value == QoiImage(data, w, h, Linear, isrgb, stride)
  {
    out := QoiEncodeKasm(data, w, h, 4, Linear, isrgb, stride);
  }

  /** writeRect: the subencoding byte, the compact length and the image.
      A failed encoding (an empty rectangle) writes nothing in the model;
      the code writes an unset length there. */
  method WriteRect(subencoding: byte, data: seq<Px>, w: u32, h: u32, isrgb: bool, stride: u32, os: OutStream)
    requires subencoding < 16
    requires !Rejected(w, h, 4, Linear) ==> Covers(data, w, h, stride)
    modifies os
    ensures Rejected(w, h, 4, Linear) ==> os.data == old(os.data)
    ensures !Rejected(w, h, 4, Linear) ==>
      var img := QoiImage(data, w, h, Linear, isrgb, stride);
      && |img| < 0x8000_0000
      && os.data == old(os.data) + [subencoding * 16] + Compact(|img|) + img
  {
    if !Rejected(w, h, 4, Linear) {
      ImageLength(data, w, h, Linear, isrgb, stride);
    }
    var encoded := QoiEncodeKasm(data, w, h, 4, Linear, isrgb, stride);
    if encoded.Some? {
      WriteOnly(subencoding, encoded.value, os);
    }
  }

  /** What writeRect sends for a rectangle whose image is below 2^22
      bytes reads back: the compact length gives the image's length, and
      the operations between header and padding decode to the rectangle's
      colours in scan order. */
  lemma RectReadsBack(data: seq<Px>, w: u32, h: u32, isrgb: bool, stride: nat, rest: seq<byte>)
    requires Covers(data, w, h, stride)
    requires |QoiImage(data, w, h, Linear, isrgb, stride)| < 0x40_0000
    ensures var img := QoiImage(data, w, h, Linear, isrgb, stride);
      && ReadCompact(Compact(|img|) + img + rest) == Some((|img|, |Compact(|img|)|))
      && DecodeOps(img[HeaderSize..|img| - |Padding|], Rgb(0, 0, 0)) == Rgbs(Pixels(data, w, h, stride, isrgb))
  {
    var img := QoiImage(data, w, h, Linear, isrgb, stride);
    assert Compact(|img|) + img + rest == Compact(|img|) + (img + rest);
    CompactRoundTrip(|img|, img + rest);
    var body := Encoded(Pixels(data, w, h, stride, isrgb), Start, 0);
    assert img[HeaderSize..|img| - |Padding|] == body;
    ImageDecodes(data, w, h, isrgb, stride);
  }

  /** isSupported(): the client announced Tight and QOI. */
  function IsSupported(supportsTight: bool, supportsQoi: bool): (r: bool)
    ensures r <==> supportsTight && supportsQoi
  {
    supportsTight && supportsQoi
  }
}
