/** The writers of the initialisation segment of a fragmented MP4 stream
    (the "ftyp" and "moov" boxes of ISO/IEC 14496-12). Every box is written
    as a zero size placeholder and its four-character type, then its
    content, and then the placeholder is overwritten with the box's length.
    Each writer is specified by the bytes it appends, given as a function. */
module Mp4Moov {
  import opened Bytes
  import opened Mp4BitBuf

  /** struct MoovInfo. sps and pps are the context's parameter-set buffers,
      of which the first spsLength and ppsLength bytes are the sets. */
  datatype MoovInfo = MoovInfo(
    profileIdc: byte, levelIdc: byte,
    sps: seq<byte>, spsLength: u16,
    pps: seq<byte>, ppsLength: u16,
    width: u16, height: u16,
    horizontalResolution: u32, verticalResolution: u32,
    creationTime: u32, timescale: u32)

  /** The writers read sps[1..3] and the first spsLength and ppsLength bytes
      of the buffers. */
  predicate ValidInfo(info: MoovInfo)
  {
    4 <= |info.sps| && info.spsLength <= |info.sps| && info.ppsLength <= |info.pps|
  }

  /** The characters of an ASCII literal as bytes. */
  function Ascii(s: string): (r: seq<byte>)
    ensures |r| == |s|
  {
    seq(|s|, i requires 0 <= i < |s| => (s[i] as int) % 256)
  }

  // ---- boxes ----

  /** A box: its length as a 32-bit field (the uint32 difference of two
      offsets), its type and its content. */
  function Box(typ: seq<byte>, content: seq<byte>): (r: seq<byte>)
    requires |typ| == 4
    ensures |r| == 8 + |content|
  {
    BE32(ToU32(8 + |content|)) + typ + content
  }

  /** The length field of a box below 4 GiB is its length, and the box's
      type and content follow it. */
  lemma BoxLayout(typ: seq<byte>, content: seq<byte>)
    requires |typ| == 4 && 8 + |content| < TWO32
    ensures GetBE32(Box(typ, content), 0) == |Box(typ, content)|
    ensures Box(typ, content)[4..8] == typ && Box(typ, content)[8..] == content
  {
    var b := Box(typ, content);
    GetBE32At(b, 0, 8 + |content|);
    assert b[..4] == BE32(8 + |content|);
  }

  /** Overwriting the placeholder with the size completes the box. */
  lemma BackPatch(c0: seq<byte>, typ: seq<byte>, content: seq<byte>)
    requires |typ| == 4
    ensures Splice(c0 + BE32(0) + typ + content, |c0|, BE32(ToU32(8 + |content|)))
      == c0 + Box(typ, content)
  {
    var s := c0 + BE32(0) + typ + content;
    var r := Splice(s, |c0|, BE32(ToU32(8 + |content|)));
    assert r == c0 + Box(typ, content) by {
      forall k | 0 <= k < |r|
        ensures r[k] == (c0 + Box(typ, content))[k]
      {
      }
    }
  }

  /** One more field after the content so far, regrouped so that the
      content stays one sequence after the box header h. */
  ghost function Extend(h: seq<byte>, acc: seq<byte>, b: seq<byte>): (r: seq<byte>)
    ensures r == acc + b && h + acc + b == h + r
  {
    acc + b
  }

  /** The 36-byte unity transformation matrix of mvhd and tkhd. */
  function Matrix(): (r: seq<byte>)
    ensures |r| == 36
  {
    BE32(65536) + BE32(0) + BE32(0) + BE32(0) + BE32(65536) + BE32(0) + BE32(0) + BE32(0)
      + BE32(0x4000_0000)
  }

  /** The first 31 bytes of the compressor-name literal of avc1. */
  function CompressorName(): (r: seq<byte>)
    ensures |r| == 31
  {
    Ascii("OpenIPC project                ")
  }

  /** The 37-byte "ilst" payload of meta: a "\xa9too" item holding the data
      atom "Lavf57.83.100". */
  function IlstArray(): (r: seq<byte>)
    ensures |r| == 37
  {
    [0, 0, 0, 37, 169, 116, 111, 111, 0, 0, 0, 29, 100, 97, 116, 97, 0, 0, 0, 1, 0, 0, 0, 0,
     76, 97, 118, 102, 53, 55, 46, 56, 51, 46, 49, 48, 48]
  }

  function FtypBox(): (r: seq<byte>)
    ensures |r| == 36
  {
    Box(Ascii("ftyp"), Ascii("isom") + BE32(0x200) + Ascii("isom") + Ascii("iso2")
      + Ascii("avc1") + Ascii("iso6") + Ascii("mp41"))
  }

  function MvhdBox(info: MoovInfo): (r: seq<byte>)
    ensures |r| == 108
  {
    Box(Ascii("mvhd"), [0, 0, 0, 0] + BE32(info.creationTime) + BE32(0) + BE32(info.timescale)
      + BE32(0) + BE32(65536) + LE16(1) + Zeros(10) + Matrix() + BE32(0) + BE32(0) + BE32(0)
      + BE32(0) + BE32(0) + BE32(0) + BE32(2))
  }

  function TkhdBox(info: MoovInfo): (r: seq<byte>)
    ensures |r| == 92
  {
    Box(Ascii("tkhd"), [0, 0, 0, 3] + BE32(info.creationTime) + BE32(0) + BE32(1) + BE32(0)
      + BE32(0) + Zeros(8) + BE16(0) + BE16(0) + BE16(0) + BE16(0) + Matrix()
      + BE32(TrackDim(info.width)) + BE32(TrackDim(info.height)))
  }

  /** A track dimension as a 16.16 fixed-point number (`width * 65536`). */
  function TrackDim(x: u16): (r: u32)
  {
    x * 65536
  }

  function MdhdBox(info: MoovInfo): (r: seq<byte>)
    ensures |r| == 32
  {
    Box(Ascii("mdhd"), [0, 0, 0, 0] + BE32(0) + BE32(0) + BE32(info.timescale) + BE32(0)
      + BE16(21956) + BE16(0))
  }

  /** hdlr: value holds the name and at least one more byte, its NUL; the
      counted string is the first valueLen + 1 bytes. */
  function HdlrBox(name: seq<byte>, manufacturer: seq<byte>, value: seq<byte>, valueLen: nat): (r: seq<byte>)
    requires |name| == 4 && |manufacturer| == 4 && valueLen + 1 <= |value|
    ensures |r| == 33 + valueLen
  {
    Box(Ascii("hdlr"), [0, 0, 0, 0] + BE32(0) + name + manufacturer + BE32(0) + BE32(0)
      + value[..valueLen + 1])
  }

  function VmhdBox(): (r: seq<byte>)
    ensures |r| == 20
  {
    Box(Ascii("vmhd"), [0, 0, 0, 1] + BE16(0) + BE16(0) + BE16(0) + BE16(0))
  }

  function UrlBox(): (r: seq<byte>)
    ensures |r| == 12
  {
    Box(Ascii("url "), [0, 0, 0, 1])
  }

  function DrefBox(): (r: seq<byte>)
    ensures |r| == 28
  {
    Box(Ascii("dref"), [0, 0, 0, 0] + BE32(1) + UrlBox())
  }

  function DinfBox(): (r: seq<byte>)
    ensures |r| == 36
  {
    Box(Ascii("dinf"), DrefBox())
  }

  function AvcCBox(info: MoovInfo): (r: seq<byte>)
    requires ValidInfo(info)
    ensures |r| == 19 + info.spsLength + info.ppsLength
  {
    Box(Ascii("avcC"), [1] + [info.sps[1]] + [info.sps[2]] + [info.sps[3]] + [0xFF] + [0xE1]
      + BE16(info.spsLength) + info.sps[..info.spsLength] + [1] + BE16(info.ppsLength)
      + info.pps[..info.ppsLength])
  }

  function Avc1Box(info: MoovInfo): (r: seq<byte>)
    requires ValidInfo(info)
    ensures |r| == 105 + info.spsLength + info.ppsLength
  {
    Box(Ascii("avc1"), [0] + [0] + [0] + [0] + [0] + [0] + BE16(1) + BE16(0) + BE16(0)
      + BE32(0) + BE32(0) + BE32(0) + BE16(info.width) + BE16(info.height)
      + BE32(info.horizontalResolution) + BE32(info.verticalResolution) + BE32(0) + BE16(1)
      + [0] + CompressorName() + BE16(24) + BE16(0xffff) + AvcCBox(info))
  }

  function StsdBox(info: MoovInfo): (r: seq<byte>)
    requires ValidInfo(info)
    ensures |r| == 121 + info.spsLength + info.ppsLength
  {
    Box(Ascii("stsd"), [0, 0, 0, 0] + BE32(1) + Avc1Box(info))
  }

  /** stts, stsc and stco: an empty table. */
  function EmptyTableBox(typ: seq<byte>): (r: seq<byte>)
    requires |typ| == 4
    ensures |r| == 16
  {
    Box(typ, [0, 0, 0, 0] + BE32(0))
  }

  function StszBox(): (r: seq<byte>)
    ensures |r| == 20
  {
    Box(Ascii("stsz"), [0, 0, 0, 0] + BE32(0) + BE32(0))
  }

  function StblBox(info: MoovInfo): (r: seq<byte>)
    requires ValidInfo(info)
    ensures |r| == 197 + info.spsLength + info.ppsLength
  {
    Box(Ascii("stbl"), StsdBox(info) + EmptyTableBox(Ascii("stts")) + EmptyTableBox(Ascii("stsc"))
      + StszBox() + EmptyTableBox(Ascii("stco")))
  }

  function MinfBox(info: MoovInfo): (r: seq<byte>)
    requires ValidInfo(info)
    ensures |r| == 261 + info.spsLength + info.ppsLength
  {
    Box(Ascii("minf"), VmhdBox() + DinfBox() + StblBox(info))
  }

  function MdiaBox(info: MoovInfo): (r: seq<byte>)
    requires ValidInfo(info)
    ensures |r| == 346 + info.spsLength + info.ppsLength
  {
    Box(Ascii("mdia"), MdhdBox(info) + HdlrBox(Ascii("vide"), [0, 0, 0, 0], Ascii("VideoHandler") + [0], 12)
      + MinfBox(info))
  }

  function TrakBox(info: MoovInfo): (r: seq<byte>)
    requires ValidInfo(info)
    ensures |r| == 446 + info.spsLength + info.ppsLength
  {
    Box(Ascii("trak"), TkhdBox(info) + MdiaBox(info))
  }

  function TrexBox(): (r: seq<byte>)
    ensures |r| == 32
  {
    Box(Ascii("trex"), [0, 0, 0, 0] + BE32(1) + BE32(1) + BE32(0) + BE32(0) + BE32(0))
  }

  function MvexBox(): (r: seq<byte>)
    ensures |r| == 40
  {
    Box(Ascii("mvex"), TrexBox())
  }

  function IlstBox(items: seq<byte>): (r: seq<byte>)
    ensures |r| == 8 + |items|
  {
    Box(Ascii("ilst"), items)
  }

  function MetaBox(): (r: seq<byte>)
    ensures |r| == 90
  {
    Box(Ascii("meta"), [0, 0, 0, 0] + HdlrBox(Ascii("mdir"), Ascii("appl"), [0], 0) + IlstBox(IlstArray()))
  }

  function UdtaBox(): (r: seq<byte>)
    ensures |r| == 98
  {
    Box(Ascii("udta"), MetaBox())
  }

  function MoovBox(info: MoovInfo): (r: seq<byte>)
    requires ValidInfo(info)
    ensures |r| == 700 + info.spsLength + info.ppsLength
  {
    Box(Ascii("moov"), MvhdBox(info) + TrakBox(info) + MvexBox() + UdtaBox())
  }

  /** What write_header appends: the ftyp box and the moov box. */
  function Header(info: MoovInfo): (r: seq<byte>)
    requires ValidInfo(info)
    ensures |r| == 736 + info.spsLength + info.ppsLength
  {
    FtypBox() + MoovBox(info)
  }

  // ---- properties of the header ----

  /** The header starts with a 36-byte ftyp box whose major brand is
      "isom", followed by a moov box that fills the rest and whose size
      field says so. */
  lemma HeaderLayout(info: MoovInfo)
    requires ValidInfo(info)
    ensures var h := Header(info);
      GetBE32(h, 0) == 36 && h[4..8] == Ascii("ftyp") && h[8..12] == Ascii("isom")
      && GetBE32(h, 36) == |h| - 36 && h[40..44] == Ascii("moov")
  {
    var h := Header(info);
    var ftypContent := Ascii("isom") + BE32(0x200) + Ascii("isom") + Ascii("iso2")
      + Ascii("avc1") + Ascii("iso6") + Ascii("mp41");
    var moovContent := MvhdBox(info) + TrakBox(info) + MvexBox() + UdtaBox();
    BoxLayout(Ascii("ftyp"), ftypContent);
    BoxLayout(Ascii("moov"), moovContent);
    assert h[..36] == FtypBox() && h[36..] == MoovBox(info);
    assert h[8..12] == FtypBox()[8..][..4];
    GetBE32At(h, 0, 36) by {
      assert h[..4] == FtypBox()[..4];
    }
    GetBE32At(h, 36, |h| - 36) by {
      assert h[36..40] == MoovBox(info)[..4];
    }
    assert h[40..44] == MoovBox(info)[4..8];
  }

  /** The avcC box carries the profile, compatibility and level bytes of
      the SPS, and then each parameter set after its 16-bit length. */
  lemma AvcCLayout(info: MoovInfo)
    requires ValidInfo(info)
    ensures var b := AvcCBox(info); var s: int := info.spsLength; var p: int := info.ppsLength;
      b[4..8] == Ascii("avcC") && b[8] == 1 && b[9..12] == info.sps[1..4]
      && GetBE16(b, 14) == s && b[16..16 + s] == info.sps[..s]
      && b[16 + s] == 1 && GetBE16(b, 17 + s) == p && b[19 + s..] == info.pps[..p]
  {
    var b := AvcCBox(info);
    var s: int := info.spsLength;
    var p: int := info.ppsLength;
    var head: seq<byte> := [1] + [info.sps[1]] + [info.sps[2]] + [info.sps[3]] + [0xFF] + [0xE1];
    var c := head + BE16(info.spsLength) + info.sps[..s] + [1] + BE16(info.ppsLength) + info.pps[..p];
    assert b == BE32(ToU32(8 + |c|)) + Ascii("avcC") + c;
    assert b[8..] == c;
    assert c[..6] == head;
    assert b[9..12] == info.sps[1..4] by {
      assert b[9..12] == head[1..4];
      assert head[1..4] == [info.sps[1], info.sps[2], info.sps[3]];
    }
    assert c[6..8] == BE16(info.spsLength);
    assert c[8..8 + s] == info.sps[..s];
    assert c[8 + s] == 1;
    assert c[9 + s..11 + s] == BE16(info.ppsLength);
    assert c[11 + s..] == info.pps[..p];
    GetBE16At(b, 14, s) by {
      assert b[14..16] == c[6..8];
    }
    GetBE16At(b, 17 + s, p) by {
      assert b[17 + s..19 + s] == c[9 + s..11 + s];
    }
    assert b[16..16 + s] == c[8..8 + s];
    assert b[19 + s..] == c[11 + s..];
  }

  /** The hdlr box of mdia names the track a video track. */
  lemma VideoHandlerLayout()
    ensures var b := HdlrBox(Ascii("vide"), [0, 0, 0, 0], Ascii("VideoHandler") + [0], 12);
      |b| == 45 && b[16..20] == Ascii("vide") && b[32..] == Ascii("VideoHandler") + [0]
  {
    var v := Ascii("VideoHandler") + [0];
    assert v[..13] == v;
  }

  // ---- the writers ----

  /** The first line of every writer: the offset of the box, a zero size
      placeholder and the type. */
  method BeginBox(ptr: BitBuf, typ: seq<byte>) returns (start: nat)
    requires ptr.Valid() && |typ| == 4
    modifies ptr
    ensures start == old(ptr.offset)
    ensures ptr.Valid() && ptr.Contents() == old(ptr.Contents()) + BE32(0) + typ
  {
    start := ptr.offset;
    ptr.PutU32Be(0);
    ptr.PutStr4(typ);
  }

  /** The last line of every writer: the box length over the placeholder. */
  method EndBox(ptr: BitBuf, start: nat, ghost c0: seq<byte>, ghost typ: seq<byte>, ghost content: seq<byte>)
    requires ptr.Valid() && |typ| == 4 && start == |c0|
    requires ptr.Contents() == c0 + BE32(0) + typ + content
    modifies ptr
    ensures ptr.Valid() && ptr.Contents() == c0 + Box(typ, content)
  {
    ptr.PutU32BeToOffset(start, ToU32(ptr.offset - start));
    BackPatch(c0, typ, content);
  }

  /** The version byte and the three flag bytes of a full box. */
  method PutVersionFlags(ptr: BitBuf, version: byte, f0: byte, f1: byte, f2: byte)
    requires ptr.Valid()
    modifies ptr
    ensures ptr.Valid() && ptr.Contents() == old(ptr.Contents()) + [version, f0, f1, f2]
  {
    ghost var c0 := ptr.Contents();
    ptr.PutU8(version);
    ghost var acc: seq<byte> := [version];
    ptr.PutU8(f0); acc := Extend(c0, acc, [f0]);
    ptr.PutU8(f1); acc := Extend(c0, acc, [f1]);
    ptr.PutU8(f2); acc := Extend(c0, acc, [f2]);
    assert acc == [version, f0, f1, f2];
  }

  /** The matrix block of write_mvhd and write_tkhd. */
  method PutMatrix(ptr: BitBuf)
    requires ptr.Valid()
    modifies ptr
    ensures ptr.Valid() && ptr.Contents() == old(ptr.Contents()) + Matrix()
  {
    ghost var c0 := ptr.Contents();
    ptr.PutU32Be(65536);
    ghost var acc := BE32(65536);
    ptr.PutU32Be(0); acc := Extend(c0, acc, BE32(0));
    ptr.PutU32Be(0); acc := Extend(c0, acc, BE32(0));
    ptr.PutU32Be(0); acc := Extend(c0, acc, BE32(0));
    ptr.PutU32Be(65536); acc := Extend(c0, acc, BE32(65536));
    ptr.PutU32Be(0); acc := Extend(c0, acc, BE32(0));
    ptr.PutU32Be(0); acc := Extend(c0, acc, BE32(0));
    ptr.PutU32Be(0); acc := Extend(c0, acc, BE32(0));
    ptr.PutU32Be(0x4000_0000); acc := Extend(c0, acc, BE32(0x4000_0000));
  }

  /** write_header. */
  method WriteHeader(ptr: BitBuf, info: MoovInfo)
    requires ptr.Valid() && ValidInfo(info)
    modifies ptr
    ensures ptr.Valid() && ptr.Contents() == old(ptr.Contents()) + Header(info)
  {
    ghost var c0 := ptr.Contents();
    WriteFtyp(ptr);
    WriteMoov(ptr, info);
    ghost var all := Extend(c0, FtypBox(), MoovBox(info));
  }

  /** write_ftyp. */
  method WriteFtyp(ptr: BitBuf)
    requires ptr.Valid()
    modifies ptr
    ensures ptr.Valid() && ptr.Contents() == old(ptr.Contents()) + FtypBox()
  {
    ghost var c0 := ptr.Contents();
    var start := BeginBox(ptr, Ascii("ftyp"));
    ghost var h := ptr.Contents();
    ptr.PutStr4(Ascii("isom"));
    ghost var acc := Ascii("isom");
    ptr.PutU32Be(0x200); acc := Extend(h, acc, BE32(0x200));
    ptr.PutStr4(Ascii("isom")); acc := Extend(h, acc, Ascii("isom"));
    ptr.PutStr4(Ascii("iso2")); acc := Extend(h, acc, Ascii("iso2"));
    ptr.PutStr4(Ascii("avc1")); acc := Extend(h, acc, Ascii("avc1"));
    ptr.PutStr4(Ascii("iso6")); acc := Extend(h, acc, Ascii("iso6"));
    ptr.PutStr4(Ascii("mp41")); acc := Extend(h, acc, Ascii("mp41"));
    EndBox(ptr, start, c0, Ascii("ftyp"), acc);
  }

  /** write_moov. */
  method WriteMoov(ptr: BitBuf, info: MoovInfo)
    requires ptr.Valid() && ValidInfo(info)
    modifies ptr
    ensures ptr.Valid() && ptr.Contents() == old(ptr.Contents()) + MoovBox(info)
  {
    ghost var c0 := ptr.Contents();
    var start := BeginBox(ptr, Ascii("moov"));
    ghost var h := ptr.Contents();
    WriteMvhd(ptr, info);
    ghost var acc := MvhdBox(info);
    WriteTrak(ptr, info); acc := Extend(h, acc, TrakBox(info));
    WriteMvex(ptr); acc := Extend(h, acc, MvexBox());
    WriteUdta(ptr); acc := Extend(h, acc, UdtaBox());
    EndBox(ptr, start, c0, Ascii("moov"), acc);
  }

  /** write_mvhd. */
  method WriteMvhd(ptr: BitBuf, info: MoovInfo)
    requires ptr.Valid()
    modifies ptr
    ensures ptr.Valid() && ptr.Contents() == old(ptr.Contents()) + MvhdBox(info)
  {
    ghost var c0 := ptr.Contents();
    var start := BeginBox(ptr, Ascii("mvhd"));
    ghost var h := ptr.Contents();
    PutVersionFlags(ptr, 0, 0, 0, 0);
    ghost var acc: seq<byte> := [0, 0, 0, 0];
    ptr.PutU32Be(info.creationTime); acc := Extend(h, acc, BE32(info.creationTime));
    ptr.PutU32Be(0); acc := Extend(h, acc, BE32(0));
    ptr.PutU32Be(info.timescale); acc := Extend(h, acc, BE32(info.timescale));
    ptr.PutU32Be(0); acc := Extend(h, acc, BE32(0));
    ptr.PutU32Be(65536); acc := Extend(h, acc, BE32(65536));
    ptr.PutU16Le(1); acc := Extend(h, acc, LE16(1));
    ptr.PutSkip(10); acc := Extend(h, acc, Zeros(10));
    PutMatrix(ptr); acc := Extend(h, acc, Matrix());
    ptr.PutU32Be(0); acc := Extend(h, acc, BE32(0));
    ptr.PutU32Be(0); acc := Extend(h, acc, BE32(0));
    ptr.PutU32Be(0); acc := Extend(h, acc, BE32(0));
    ptr.PutU32Be(0); acc := Extend(h, acc, BE32(0));
    ptr.PutU32Be(0); acc := Extend(h, acc, BE32(0));
    ptr.PutU32Be(0); acc := Extend(h, acc, BE32(0));
    ptr.PutU32Be(2); acc := Extend(h, acc, BE32(2));
    EndBox(ptr, start, c0, Ascii("mvhd"), acc);
  }

  /** write_trak. */
  method WriteTrak(ptr: BitBuf, info: MoovInfo)
    requires ptr.Valid() && ValidInfo(info)
    modifies ptr
    ensures ptr.Valid() && ptr.Contents() == old(ptr.Contents()) + TrakBox(info)
  {
    ghost var c0 := ptr.Contents();
    var start := BeginBox(ptr, Ascii("trak"));
    ghost var h := ptr.Contents();
    WriteTkhd(ptr, info);
    WriteMdia(ptr, info);
    ghost var acc := Extend(h, TkhdBox(info), MdiaBox(info));
    EndBox(ptr, start, c0, Ascii("trak"), acc);
  }

  /** write_tkhd. The source ignores the errors of most of these puts;
      in the model no put fails. */
  method WriteTkhd(ptr: BitBuf, info: MoovInfo)
    requires ptr.Valid()
    modifies ptr
    ensures ptr.Valid() && ptr.Contents() == old(ptr.Contents()) + TkhdBox(info)
  {
    ghost var c0 := ptr.Contents();
    var start := BeginBox(ptr, Ascii("tkhd"));
    ghost var h := ptr.Contents();
    PutVersionFlags(ptr, 0, 0, 0, 3);
    ghost var acc: seq<byte> := [0, 0, 0, 3];
    ptr.PutU32Be(info.creationTime); acc := Extend(h, acc, BE32(info.creationTime));
    ptr.PutU32Be(0); acc := Extend(h, acc, BE32(0));
    ptr.PutU32Be(1); acc := Extend(h, acc, BE32(1));
    ptr.PutU32Be(0); acc := Extend(h, acc, BE32(0));
    ptr.PutU32Be(0); acc := Extend(h, acc, BE32(0));
    ptr.PutSkip(8); acc := Extend(h, acc, Zeros(8));
    ptr.PutU16Be(0); acc := Extend(h, acc, BE16(0));
    ptr.PutU16Be(0); acc := Extend(h, acc, BE16(0));
    ptr.PutU16Be(0); acc := Extend(h, acc, BE16(0));
    ptr.PutU16Be(0); acc := Extend(h, acc, BE16(0));
    PutMatrix(ptr); acc := Extend(h, acc, Matrix());
    ptr.PutU32Be(TrackDim(info.width)); acc := Extend(h, acc, BE32(TrackDim(info.width)));
    ptr.PutU32Be(TrackDim(info.height)); acc := Extend(h, acc, BE32(TrackDim(info.height)));
    EndBox(ptr, start, c0, Ascii("tkhd"), acc);
  }

  /** write_mdia. */
  method WriteMdia(ptr: BitBuf, info: MoovInfo)
    requires ptr.Valid() && ValidInfo(info)
    modifies ptr
    ensures ptr.Valid() && ptr.Contents() == old(ptr.Contents()) + MdiaBox(info)
  {
    ghost var c0 := ptr.Contents();
    var start := BeginBox(ptr, Ascii("mdia"));
    ghost var h := ptr.Contents();
    WriteMdhd(ptr, info);
    ghost var acc := MdhdBox(info);
    var str := Ascii("VideoHandler") + [0];
    WriteHdlr(ptr, Ascii("vide"), [0, 0, 0, 0], str, 12);
    acc := Extend(h, acc, HdlrBox(Ascii("vide"), [0, 0, 0, 0], str, 12));
    WriteMinf(ptr, info); acc := Extend(h, acc, MinfBox(info));
    EndBox(ptr, start, c0, Ascii("mdia"), acc);
  }

  /** write_mdhd. */
  method WriteMdhd(ptr: BitBuf, info: MoovInfo)
    requires ptr.Valid()
    modifies ptr
    ensures ptr.Valid() && ptr.Contents() == old(ptr.Contents()) + MdhdBox(info)
  {
    ghost var c0 := ptr.Contents();
    var start := BeginBox(ptr, Ascii("mdhd"));
    ghost var h := ptr.Contents();
    PutVersionFlags(ptr, 0, 0, 0, 0);
    ghost var acc: seq<byte> := [0, 0, 0, 0];
    ptr.PutU32Be(0); acc := Extend(h, acc, BE32(0));
    ptr.PutU32Be(0); acc := Extend(h, acc, BE32(0));
    ptr.PutU32Be(info.timescale); acc := Extend(h, acc, BE32(info.timescale));
    ptr.PutU32Be(0); acc := Extend(h, acc, BE32(0));
    ptr.PutU16Be(21956); acc := Extend(h, acc, BE16(21956));
    ptr.PutU16Be(0); acc := Extend(h, acc, BE16(0));
    EndBox(ptr, start, c0, Ascii("mdhd"), acc);
  }

  /** write_minf. */
  method WriteMinf(ptr: BitBuf, info: MoovInfo)
    requires ptr.Valid() && ValidInfo(info)
    modifies ptr
    ensures ptr.Valid() && ptr.Contents() == old(ptr.Contents()) + MinfBox(info)
  {
    ghost var c0 := ptr.Contents();
    var start := BeginBox(ptr, Ascii("minf"));
    ghost var h := ptr.Contents();
    WriteVmhd(ptr);
    ghost var acc := VmhdBox();
    WriteDinf(ptr); acc := Extend(h, acc, DinfBox());
    WriteStbl(ptr, info); acc := Extend(h, acc, StblBox(info));
    EndBox(ptr, start, c0, Ascii("minf"), acc);
  }

  /** write_dinf. */
  method WriteDinf(ptr: BitBuf)
    requires ptr.Valid()
    modifies ptr
    ensures ptr.Valid() && ptr.Contents() == old(ptr.Contents()) + DinfBox()
  {
    ghost var c0 := ptr.Contents();
    var start := BeginBox(ptr, Ascii("dinf"));
    WriteDref(ptr);
    EndBox(ptr, start, c0, Ascii("dinf"), DrefBox());
  }

  /** write_dref. */
  method WriteDref(ptr: BitBuf)
    requires ptr.Valid()
    modifies ptr
    ensures ptr.Valid() && ptr.Contents() == old(ptr.Contents()) + DrefBox()
  {
    ghost var c0 := ptr.Contents();
    var start := BeginBox(ptr, Ascii("dref"));
    ghost var h := ptr.Contents();
    PutVersionFlags(ptr, 0, 0, 0, 0);
    ghost var acc: seq<byte> := [0, 0, 0, 0];
    ptr.PutU32Be(1); acc := Extend(h, acc, BE32(1));
    WriteUrl(ptr); acc := Extend(h, acc, UrlBox());
    EndBox(ptr, start, c0, Ascii("dref"), acc);
  }

  /** write_url. */
  method WriteUrl(ptr: BitBuf)
    requires ptr.Valid()
    modifies ptr
    ensures ptr.Valid() && ptr.Contents() == old(ptr.Contents()) + UrlBox()
  {
    ghost var c0 := ptr.Contents();
    var start := BeginBox(ptr, Ascii("url "));
    PutVersionFlags(ptr, 0, 0, 0, 1);
    EndBox(ptr, start, c0, Ascii("url "), [0, 0, 0, 1]);
  }

  /** write_vmhd. */
  method WriteVmhd(ptr: BitBuf)
    requires ptr.Valid()
    modifies ptr
    ensures ptr.Valid() && ptr.Contents() == old(ptr.Contents()) + VmhdBox()
  {
    ghost var c0 := ptr.Contents();
    var start := BeginBox(ptr, Ascii("vmhd"));
    ghost var h := ptr.Contents();
    PutVersionFlags(ptr, 0, 0, 0, 1);
    ghost var acc: seq<byte> := [0, 0, 0, 1];
    ptr.PutU16Be(0); acc := Extend(h, acc, BE16(0));
    ptr.PutU16Be(0); acc := Extend(h, acc, BE16(0));
    ptr.PutU16Be(0); acc := Extend(h, acc, BE16(0));
    ptr.PutU16Be(0); acc := Extend(h, acc, BE16(0));
    EndBox(ptr, start, c0, Ascii("vmhd"), acc);
  }

  /** write_stbl. */
  method WriteStbl(ptr: BitBuf, info: MoovInfo)
    requires ptr.Valid() && ValidInfo(info)
    modifies ptr
    ensures ptr.Valid() && ptr.Contents() == old(ptr.Contents()) + StblBox(info)
  {
    ghost var c0 := ptr.Contents();
    var start := BeginBox(ptr, Ascii("stbl"));
    ghost var h := ptr.Contents();
    WriteStsd(ptr, info);
    ghost var acc := StsdBox(info);
    WriteEmptyTable(ptr, Ascii("stts")); acc := Extend(h, acc, EmptyTableBox(Ascii("stts")));
    WriteEmptyTable(ptr, Ascii("stsc")); acc := Extend(h, acc, EmptyTableBox(Ascii("stsc")));
    WriteStsz(ptr); acc := Extend(h, acc, StszBox());
    WriteEmptyTable(ptr, Ascii("stco")); acc := Extend(h, acc, EmptyTableBox(Ascii("stco")));
    EndBox(ptr, start, c0, Ascii("stbl"), acc);
  }

  /** write_stsd. */
  method WriteStsd(ptr: BitBuf, info: MoovInfo)
    requires ptr.Valid() && ValidInfo(info)
    modifies ptr
    ensures ptr.Valid() && ptr.Contents() == old(ptr.Contents()) + StsdBox(info)
  {
    ghost var c0 := ptr.Contents();
    var start := BeginBox(ptr, Ascii("stsd"));
    ghost var h := ptr.Contents();
    PutVersionFlags(ptr, 0, 0, 0, 0);
    ghost var acc: seq<byte> := [0, 0, 0, 0];
    ptr.PutU32Be(1); acc := Extend(h, acc, BE32(1));
    WriteAvc1(ptr, info); acc := Extend(h, acc, Avc1Box(info));
    EndBox(ptr, start, c0, Ascii("stsd"), acc);
  }

  /** write_avc1. */
  method WriteAvc1(ptr: BitBuf, info: MoovInfo)
    requires ptr.Valid() && ValidInfo(info)
    modifies ptr
    ensures ptr.Valid() && ptr.Contents() == old(ptr.Contents()) + Avc1Box(info)
  {
    ghost var c0 := ptr.Contents();
    var start := BeginBox(ptr, Ascii("avc1"));
    ghost var h := ptr.Contents();
    ptr.PutU8(0);
    ghost var acc: seq<byte> := [0];
    ptr.PutU8(0); acc := Extend(h, acc, [0]);
    ptr.PutU8(0); acc := Extend(h, acc, [0]);
    ptr.PutU8(0); acc := Extend(h, acc, [0]);
    ptr.PutU8(0); acc := Extend(h, acc, [0]);
    ptr.PutU8(0); acc := Extend(h, acc, [0]);
    ptr.PutU16Be(1); acc := Extend(h, acc, BE16(1));
    ptr.PutU16Be(0); acc := Extend(h, acc, BE16(0));
    ptr.PutU16Be(0); acc := Extend(h, acc, BE16(0));
    ptr.PutU32Be(0); acc := Extend(h, acc, BE32(0));
    ptr.PutU32Be(0); acc := Extend(h, acc, BE32(0));
    ptr.PutU32Be(0); acc := Extend(h, acc, BE32(0));
    ptr.PutU16Be(info.width); acc := Extend(h, acc, BE16(info.width));
    ptr.PutU16Be(info.height); acc := Extend(h, acc, BE16(info.height));
    ptr.PutU32Be(info.horizontalResolution); acc := Extend(h, acc, BE32(info.horizontalResolution));
    ptr.PutU32Be(info.verticalResolution); acc := Extend(h, acc, BE32(info.verticalResolution));
    ptr.PutU32Be(0); acc := Extend(h, acc, BE32(0));
    ptr.PutU16Be(1); acc := Extend(h, acc, BE16(1));
    ptr.PutU8(0); acc := Extend(h, acc, [0]);
    ptr.Put(CompressorName()); acc := Extend(h, acc, CompressorName());
    ptr.PutU16Be(24); acc := Extend(h, acc, BE16(24));
    ptr.PutU16Be(0xffff); acc := Extend(h, acc, BE16(0xffff));
    WriteAvcC(ptr, info); acc := Extend(h, acc, AvcCBox(info));
    EndBox(ptr, start, c0, Ascii("avc1"), acc);
  }

  /** write_avcC. */
  method WriteAvcC(ptr: BitBuf, info: MoovInfo)
    requires ptr.Valid() && ValidInfo(info)
    modifies ptr
    ensures ptr.Valid() && ptr.Contents() == old(ptr.Contents()) + AvcCBox(info)
  {
    ghost var c0 := ptr.Contents();
    var start := BeginBox(ptr, Ascii("avcC"));
    ghost var h := ptr.Contents();
    ptr.PutU8(1);
    ghost var acc: seq<byte> := [1];
    ptr.PutU8(info.sps[1]); acc := Extend(h, acc, [info.sps[1]]);
    ptr.PutU8(info.sps[2]); acc := Extend(h, acc, [info.sps[2]]);
    ptr.PutU8(info.sps[3]); acc := Extend(h, acc, [info.sps[3]]);
    ptr.PutU8(0xFF); acc := Extend(h, acc, [0xFF]);
    ptr.PutU8(0xE1); acc := Extend(h, acc, [0xE1]);
    ptr.PutU16Be(info.spsLength); acc := Extend(h, acc, BE16(info.spsLength));
    ptr.Put(info.sps[..info.spsLength]); acc := Extend(h, acc, info.sps[..info.spsLength]);
    ptr.PutU8(1); acc := Extend(h, acc, [1]);
    ptr.PutU16Be(info.ppsLength); acc := Extend(h, acc, BE16(info.ppsLength));
    ptr.Put(info.pps[..info.ppsLength]); acc := Extend(h, acc, info.pps[..info.ppsLength]);
    EndBox(ptr, start, c0, Ascii("avcC"), acc);
  }

  /** write_stts, write_stsc and write_stco, which differ only in the
      type. */
  method WriteEmptyTable(ptr: BitBuf, typ: seq<byte>)
    requires ptr.Valid() && |typ| == 4
    modifies ptr
    ensures ptr.Valid() && ptr.Contents() == old(ptr.Contents()) + EmptyTableBox(typ)
  {
    ghost var c0 := ptr.Contents();
    var start := BeginBox(ptr, typ);
    ghost var h := ptr.Contents();
    PutVersionFlags(ptr, 0, 0, 0, 0);
    ghost var acc: seq<byte> := [0, 0, 0, 0];
    ptr.PutU32Be(0); acc := Extend(h, acc, BE32(0));
    EndBox(ptr, start, c0, typ, acc);
  }

  /** write_stsz. */
  method WriteStsz(ptr: BitBuf)
    requires ptr.Valid()
    modifies ptr
    ensures ptr.Valid() && ptr.Contents() == old(ptr.Contents()) + StszBox()
  {
    ghost var c0 := ptr.Contents();
    var start := BeginBox(ptr, Ascii("stsz"));
    ghost var h := ptr.Contents();
    PutVersionFlags(ptr, 0, 0, 0, 0);
    ghost var acc: seq<byte> := [0, 0, 0, 0];
    ptr.PutU32Be(0); acc := Extend(h, acc, BE32(0));
    ptr.PutU32Be(0); acc := Extend(h, acc, BE32(0));
    EndBox(ptr, start, c0, Ascii("stsz"), acc);
  }

  /** write_mvex. */
  method WriteMvex(ptr: BitBuf)
    requires ptr.Valid()
    modifies ptr
    ensures ptr.Valid() && ptr.Contents() == old(ptr.Contents()) + MvexBox()
  {
    ghost var c0 := ptr.Contents();
    var start := BeginBox(ptr, Ascii("mvex"));
    WriteTrex(ptr);
    EndBox(ptr, start, c0, Ascii("mvex"), TrexBox());
  }

  /** write_trex. */
  method WriteTrex(ptr: BitBuf)
    requires ptr.Valid()
    modifies ptr
    ensures ptr.Valid() && ptr.Contents() == old(ptr.Contents()) + TrexBox()
  {
    ghost var c0 := ptr.Contents();
    var start := BeginBox(ptr, Ascii("trex"));
    ghost var h := ptr.Contents();
    PutVersionFlags(ptr, 0, 0, 0, 0);
    ghost var acc: seq<byte> := [0, 0, 0, 0];
    ptr.PutU32Be(1); acc := Extend(h, acc, BE32(1));
    ptr.PutU32Be(1); acc := Extend(h, acc, BE32(1));
    ptr.PutU32Be(0); acc := Extend(h, acc, BE32(0));
    ptr.PutU32Be(0); acc := Extend(h, acc, BE32(0));
    ptr.PutU32Be(0); acc := Extend(h, acc, BE32(0));
    EndBox(ptr, start, c0, Ascii("trex"), acc);
  }

  /** write_udta. */
  method WriteUdta(ptr: BitBuf)
    requires ptr.Valid()
    modifies ptr
    ensures ptr.Valid() && ptr.Contents() == old(ptr.Contents()) + UdtaBox()
  {
    ghost var c0 := ptr.Contents();
    var start := BeginBox(ptr, Ascii("udta"));
    WriteMeta(ptr);
    EndBox(ptr, start, c0, Ascii("udta"), MetaBox());
  }

  /** write_meta. */
  method WriteMeta(ptr: BitBuf)
    requires ptr.Valid()
    modifies ptr
    ensures ptr.Valid() && ptr.Contents() == old(ptr.Contents()) + MetaBox()
  {
    ghost var c0 := ptr.Contents();
    var start := BeginBox(ptr, Ascii("meta"));
    ghost var h := ptr.Contents();
    PutVersionFlags(ptr, 0, 0, 0, 0);
    ghost var acc: seq<byte> := [0, 0, 0, 0];
    WriteHdlr(ptr, Ascii("mdir"), Ascii("appl"), [0], 0);
    acc := Extend(h, acc, HdlrBox(Ascii("mdir"), Ascii("appl"), [0], 0));
    WriteIlst(ptr, IlstArray()); acc := Extend(h, acc, IlstBox(IlstArray()));
    EndBox(ptr, start, c0, Ascii("meta"), acc);
  }

  /** write_hdlr. */
  method WriteHdlr(ptr: BitBuf, name: seq<byte>, manufacturer: seq<byte>, value: seq<byte>, valueLen: nat)
    requires ptr.Valid() && |name| == 4 && |manufacturer| == 4 && valueLen + 1 <= |value|
    modifies ptr
    ensures ptr.Valid() && ptr.Contents() == old(ptr.Contents()) + HdlrBox(name, manufacturer, value, valueLen)
  {
    ghost var c0 := ptr.Contents();
    var start := BeginBox(ptr, Ascii("hdlr"));
    ghost var h := ptr.Contents();
    PutVersionFlags(ptr, 0, 0, 0, 0);
    ghost var acc: seq<byte> := [0, 0, 0, 0];
    ptr.PutU32Be(0); acc := Extend(h, acc, BE32(0));
    ptr.PutStr4(name); acc := Extend(h, acc, name);
    ptr.PutStr4(manufacturer); acc := Extend(h, acc, manufacturer);
    ptr.PutU32Be(0); acc := Extend(h, acc, BE32(0));
    ptr.PutU32Be(0); acc := Extend(h, acc, BE32(0));
    ptr.PutCountedStr(value, valueLen); acc := Extend(h, acc, value[..valueLen + 1]);
    EndBox(ptr, start, c0, Ascii("hdlr"), acc);
  }

  /** write_ilst. */
  method WriteIlst(ptr: BitBuf, items: seq<byte>)
    requires ptr.Valid()
    modifies ptr
    ensures ptr.Valid() && ptr.Contents() == old(ptr.Contents()) + IlstBox(items)
  {
    ghost var c0 := ptr.Contents();
    var start := BeginBox(ptr, Ascii("ilst"));
    ptr.Put(items);
    EndBox(ptr, start, c0, Ascii("ilst"), items);
  }
}
