/** The writers of one movie fragment (the "moof" and "mdat" boxes of
    section 8.8 of ISO/IEC 14496-12). While writing, the fragment writer
    records where the sequence number and the decode time were stored, so
    that they can be overwritten for the next fragment, and it patches the
    run's data offset once the length of moof is known. */
module Mp4Moof {
  import opened Bytes
  import opened Mp4BitBuf
  import opened Mp4Moov

  /** struct SampleInfo. */
  datatype SampleInfo = SampleInfo(
    duration: u32, decodeTime: u32, compositionTime: u32,
    compositionOffset: u32, size: u32, flags: u32)

  /** struct DataOffsetPos: where trun holds its data offset. */
  datatype DataOffsetPos = DataOffsetPos(dataOffsetPresent: bool, offset: nat)

  /** The globals pos_sequence_number, pos_base_data_offset and
      pos_base_media_decode_time: buffer offsets of the fields, 0 while
      not recorded. */
  class FragmentPositions {
    var sequenceNumber: nat
    var baseDataOffset: nat
    var baseMediaDecodeTime: nat

    constructor ()
      ensures sequenceNumber == 0 && baseDataOffset == 0 && baseMediaDecodeTime == 0
    {
      sequenceNumber, baseDataOffset, baseMediaDecodeTime := 0, 0, 0;
    }
  }

  /** The signed value of a 32-bit pattern, as the conversion of a
      uint32_t argument to int32_t gives it. */
  function AsI32(x: u32): (r: i32)
    ensures I32Bits(r) == x
    ensures x < 0x8000_0000 <==> r >= 0
  {
    if x < 0x8000_0000 then x else x - TWO32
  }

  /** tfhd: default-sample-duration (0x08), default-sample-size (0x10)
      and default-sample-flags (0x20) present; the other flags are off. */
  const TfhdFlags: nat := 0x000008 + 0x000010 + 0x000020

  /** trun: data-offset (0x001), sample-duration (0x100), sample-size
      (0x200), sample-flags (0x400) and sample-composition-time-offsets
      (0x800) present; first-sample-flags is off. */
  const TrunFlags: nat := 0x000001 + 0x000100 + 0x000200 + 0x000400 + 0x000800

  /** The three flag bytes (flags >> 16, flags >> 8, flags as uint8_t) of
      tfhd are 00 00 38, and those of trun 00 0F 01. */
  lemma FlagBytes()
    ensures ToU8(TfhdFlags / 0x1_0000) == 0 && ToU8(TfhdFlags / 0x100) == 0 && ToU8(TfhdFlags) == 0x38
    ensures ToU8(TrunFlags / 0x1_0000) == 0 && ToU8(TrunFlags / 0x100) == 0x0F && ToU8(TrunFlags) == 0x01
  {
  }

  // ---- the boxes ----

  /** mdat: the original length and the first len bytes of the data. */
  function MdatBox(data: seq<byte>, origlen: u32, len: nat): (r: seq<byte>)
    requires len <= |data|
    ensures |r| == 12 + len
  {
    Box(Ascii("mdat"), BE32(origlen) + data[..len])
  }

  function MfhdBox(sequenceNumber: u32): (r: seq<byte>)
    ensures |r| == 16
  {
    Box(Ascii("mfhd"), [0, 0, 0, 0] + BE32(sequenceNumber))
  }

  function TfhdBox(defaultSampleSize: u32, defaultSampleDuration: u32): (r: seq<byte>)
    ensures |r| == 28
  {
    Box(Ascii("tfhd"), [0, 0, 0, 0x38] + BE32(1) + BE32(defaultSampleDuration)
      + BE32(defaultSampleSize) + BE32(16842752))
  }

  function TfdtBox(baseMediaDecodeTime: u64): (r: seq<byte>)
    ensures |r| == 20
  {
    Box(Ascii("tfdt"), [1, 0, 0, 0] + BE64(baseMediaDecodeTime))
  }

  /** The four fields of one sample in trun; the composition offset is
      written as the int32_t of its bits, which are the same bits. */
  function SampleBytes(x: SampleInfo): (r: seq<byte>)
    ensures |r| == 16
  {
    BE32(x.duration) + BE32(x.size) + BE32(x.flags) + BE32(x.compositionOffset)
  }

  /** The sample fields of a run, in order. */
  function SampleFields(samples: seq<SampleInfo>): (r: seq<byte>)
    ensures |r| == 16 * |samples|
  {
    if samples == [] then []
    else SampleFields(samples[..|samples| - 1]) + SampleBytes(samples[|samples| - 1])
  }

  /** trun with the given value in its data offset field. */
  function TrunBox(samples: seq<SampleInfo>, count: nat, dataOffset: u32): (r: seq<byte>)
    requires count <= |samples| && count < TWO32
    ensures |r| == 20 + 16 * count
  {
    Box(Ascii("trun"), [0, 0, 0x0F, 0x01] + BE32(count) + BE32(dataOffset)
      + SampleFields(samples[..count]))
  }

  /** traf: the default sample size is that of the first sample. */
  function TrafBox(baseMediaDecodeTime: u64, defaultSampleDuration: u32,
                   samples: seq<SampleInfo>, count: nat, dataOffset: u32): (r: seq<byte>)
    requires 1 <= |samples| && count <= |samples| && count < TWO32
    ensures |r| == 76 + 16 * count
  {
    Box(Ascii("traf"), TfhdBox(samples[0].size, defaultSampleDuration)
      + TfdtBox(baseMediaDecodeTime) + TrunBox(samples, count, dataOffset))
  }

  /** The value write_moof patches into the data offset: the offset just
      past moof plus the eight bytes of the mdat header, as a uint32_t. */
  function DataOffsetValue(start: nat, count: nat): u32
  {
    ToU32(start + 100 + 16 * count + 8)
  }

  /** moof written at buffer offset start. */
  function MoofBox(start: nat, sequenceNumber: u32, baseMediaDecodeTime: u64,
                   defaultSampleDuration: u32, samples: seq<SampleInfo>, count: nat): (r: seq<byte>)
    requires 1 <= |samples| && count <= |samples| && count < TWO32
    ensures |r| == 100 + 16 * count
  {
    Box(Ascii("moof"), MfhdBox(sequenceNumber)
      + TrafBox(baseMediaDecodeTime, defaultSampleDuration, samples, count, DataOffsetValue(start, count)))
  }

  // ---- properties of the boxes ----

  /** The fields of sample i sit at 16 * i in the run's sample fields. */
  lemma {:induction false} SampleFieldsAt(samples: seq<SampleInfo>, i: nat)
    requires i < |samples|
    ensures SampleFields(samples)[16 * i..16 * i + 16] == SampleBytes(samples[i])
  {
    var n := |samples| - 1;
    var front := samples[..n];
    var a, b := SampleFields(front), SampleBytes(samples[n]);
    assert SampleFields(samples) == a + b;
    if i < n {
      SampleFieldsAt(front, i);
      SliceOfFront(a, b, 16 * i, 16 * i + 16);
    } else {
      SliceOfBack(a, b);
    }
  }

  lemma SliceOfFront(a: seq<byte>, b: seq<byte>, x: nat, y: nat)
    requires x <= y <= |a|
    ensures (a + b)[x..y] == a[x..y]
  {
  }

  lemma SliceOfBack(a: seq<byte>, b: seq<byte>)
    ensures (a + b)[|a|..|a| + |b|] == b
  {
  }

  /** Overwriting the field x between pre and post. */
  lemma SpliceField(pre: seq<byte>, x: seq<byte>, post: seq<byte>, y: seq<byte>)
    requires |x| == |y|
    ensures Splice(pre + x + post, |pre|, y) == pre + y + post
  {
    var r := Splice(pre + x + post, |pre|, y);
    forall k | 0 <= k < |r|
      ensures r[k] == (pre + y + post)[k]
    {
    }
  }

  /** The 72 bytes of traf in front of the data offset: the traf header,
      tfhd, tfdt and the trun header up to the sample count. */
  ghost function TrafHead(bmdt: u64, dsd: u32, samples: seq<SampleInfo>, count: nat): (r: seq<byte>)
    requires 1 <= |samples| && count < TWO32
    ensures |r| == 72
  {
    (BE32(ToU32(76 + 16 * count)) + Ascii("traf") + TfhdBox(samples[0].size, dsd)) + TfdtBox(bmdt)
      + (BE32(ToU32(20 + 16 * count)) + Ascii("trun") + [0, 0, 0x0F, 0x01] + BE32(count))
  }

  /** traf is its head, the data offset and the sample fields. */
  lemma TrafSplit(bmdt: u64, dsd: u32, samples: seq<SampleInfo>, count: nat, d: u32)
    requires 1 <= |samples| && count <= |samples| && count < TWO32
    ensures TrafBox(bmdt, dsd, samples, count, d)
      == TrafHead(bmdt, dsd, samples, count) + BE32(d) + SampleFields(samples[..count])
  {
  }

  /** The parts of moof: the header, mfhd at 8, the traf head at 24, the
      data offset at 96 and the sample fields from 100 on. */
  lemma MoofParts(start: nat, seqNo: u32, bmdt: u64, dsd: u32, samples: seq<SampleInfo>, count: nat)
    requires 1 <= |samples| && count <= |samples| && 100 + 16 * count < TWO32
    ensures var m := MoofBox(start, seqNo, bmdt, dsd, samples, count);
      GetBE32(m, 0) == |m| && m[4..8] == Ascii("moof")
      && m[8..24] == MfhdBox(seqNo) && m[24..96] == TrafHead(bmdt, dsd, samples, count)
      && m[96..100] == BE32(DataOffsetValue(start, count)) && m[100..] == SampleFields(samples[..count])
  {
    var d := DataOffsetValue(start, count);
    var head := TrafHead(bmdt, dsd, samples, count);
    var fields := SampleFields(samples[..count]);
    var mfhd := MfhdBox(seqNo);
    TrafSplit(bmdt, dsd, samples, count, d);
    var content := mfhd + (head + BE32(d) + fields);
    BoxLayout(Ascii("moof"), content);
    var m := MoofBox(start, seqNo, bmdt, dsd, samples, count);
    assert m[8..] == content;
    FourParts(mfhd, head, BE32(d), fields);
  }

  lemma FourParts(a: seq<byte>, b: seq<byte>, c: seq<byte>, e: seq<byte>)
    ensures var s := a + (b + c + e);
      s[..|a|] == a && s[|a|..|a| + |b|] == b && s[|a| + |b|..|a| + |b| + |c|] == c
      && s[|a| + |b| + |c|..] == e
  {
  }

  /** Where set_mp4_state and a demuxer find the fields of a fragment: the
      size, the sequence number at 20, the decode time at 72, the data
      offset at 96, which points eight bytes past the end of moof, and the
      fields of sample i at 100 + 16 * i. */
  lemma MoofLayout(start: nat, seqNo: u32, bmdt: u64, dsd: u32, samples: seq<SampleInfo>, count: nat)
    requires 1 <= |samples| && count <= |samples| && 100 + 16 * count < TWO32
    ensures var m := MoofBox(start, seqNo, bmdt, dsd, samples, count);
      GetBE32(m, 0) == |m| && m[4..8] == Ascii("moof")
      && m[20..24] == BE32(seqNo) && m[72..80] == BE64(bmdt)
      && m[96..100] == BE32(ToU32(start + |m| + 8))
      && forall i :: 0 <= i < count ==> m[100 + 16 * i..116 + 16 * i] == SampleBytes(samples[i])
  {
    var m := MoofBox(start, seqNo, bmdt, dsd, samples, count);
    MoofParts(start, seqNo, bmdt, dsd, samples, count);
    HeadFields(m, seqNo, bmdt, dsd, samples, count);
    forall i | 0 <= i < count
      ensures m[100 + 16 * i..116 + 16 * i] == SampleBytes(samples[i])
    {
      SampleAt(m, samples[..count], i);
    }
  }

  lemma HeadFields(m: seq<byte>, seqNo: u32, bmdt: u64, dsd: u32, samples: seq<SampleInfo>, count: nat)
    requires 1 <= |samples| && count < TWO32 && |m| >= 100
    requires m[8..24] == MfhdBox(seqNo) && m[24..96] == TrafHead(bmdt, dsd, samples, count)
    ensures m[20..24] == BE32(seqNo) && m[72..80] == BE64(bmdt)
  {
    var mfhd := MfhdBox(seqNo);
    SliceEnd(BE32(16) + Ascii("mfhd") + [0, 0, 0, 0], BE32(seqNo));
    SliceIn(m, 8, 24, 12, 16);
    var pre := BE32(ToU32(76 + 16 * count)) + Ascii("traf") + TfhdBox(samples[0].size, dsd);
    var tfdt := TfdtBox(bmdt);
    SliceMid(pre, tfdt, BE32(ToU32(20 + 16 * count)) + Ascii("trun") + [0, 0, 0x0F, 0x01] + BE32(count));
    SliceIn(m, 24, 96, 36, 56);
    SliceIn(m, 60, 80, 12, 20);
    SliceEnd(BE32(20) + Ascii("tfdt"), [1, 0, 0, 0] + BE64(bmdt));
    SliceEnd([1, 0, 0, 0], BE64(bmdt));
    SliceIn(tfdt, 8, 20, 4, 12);
  }

  lemma SliceMid(a: seq<byte>, b: seq<byte>, c: seq<byte>)
    ensures (a + b + c)[|a|..|a| + |b|] == b
  {
  }

  lemma SliceEnd(a: seq<byte>, b: seq<byte>)
    ensures (a + b)[|a|..] == b
  {
  }

  lemma SliceIn(s: seq<byte>, x: nat, y: nat, u: nat, v: nat)
    requires x <= y <= |s| && u <= v <= y - x
    ensures s[x..y][u..v] == s[x + u..x + v]
  {
    assert forall k :: 0 <= k < v - u ==> s[x..y][u..v][k] == s[x + u + k];
  }

  lemma SampleAt(m: seq<byte>, run: seq<SampleInfo>, i: nat)
    requires i < |run| && |m| == 100 + 16 * |run| && m[100..] == SampleFields(run)
    ensures m[100 + 16 * i..116 + 16 * i] == SampleBytes(run[i])
  {
    SampleFieldsAt(run, i);
    SliceIn(m, 100, |m|, 16 * i, 16 * i + 16);
  }

  /** Each field of a sample decodes to its value. */
  lemma SampleBytesDecode(x: SampleInfo)
    ensures var b := SampleBytes(x);
      GetBE32(b, 0) == x.duration && GetBE32(b, 4) == x.size
      && GetBE32(b, 8) == x.flags && GetBE32(b, 12) == x.compositionOffset
  {
    var b := SampleBytes(x);
    GetBE32At(b, 0, x.duration);
    GetBE32At(b, 4, x.size);
    GetBE32At(b, 8, x.flags);
    GetBE32At(b, 12, x.compositionOffset);
  }

  /** mdat carries the original length and then the data. */
  lemma MdatLayout(data: seq<byte>, origlen: u32, len: nat)
    requires len <= |data| && 12 + len < TWO32
    ensures var b := MdatBox(data, origlen, len);
      GetBE32(b, 0) == |b| && b[4..8] == Ascii("mdat")
      && GetBE32(b, 8) == origlen && b[12..] == data[..len]
  {
    var b := MdatBox(data, origlen, len);
    BoxLayout(Ascii("mdat"), BE32(origlen) + data[..len]);
    GetBE32At(b, 8, origlen) by {
      assert b[8..12] == BE32(origlen);
    }
  }

  // ---- the writers ----

  /** write_mdat. */
  method WriteMdat(ptr: BitBuf, data: seq<byte>, origlen: u32, len: u32)
    requires ptr.Valid() && len <= |data|
    modifies ptr
    ensures ptr.Valid() && ptr.Contents() == old(ptr.Contents()) + MdatBox(data, origlen, len)
  {
    ghost var c0 := ptr.Contents();
    var start := BeginBox(ptr, Ascii("mdat"));
    ghost var h := ptr.Contents();
    ptr.PutU32Be(origlen);
    ghost var acc := BE32(origlen);
    ptr.Put(data[..len]); acc := Extend(h, acc, data[..len]);
    EndBox(ptr, start, c0, Ascii("mdat"), acc);
  }

  /** write_moof: mfhd and traf, then the data offset of the run. */
  method WriteMoof(ptr: BitBuf, pos: FragmentPositions, sequenceNumber: u32, baseDataOffset: u64,
                   baseMediaDecodeTime: u64, defaultSampleDuration: u32,
                   samples: seq<SampleInfo>, count: u32)
    requires ptr.Valid() && 1 <= |samples| && count <= |samples|
    modifies ptr, pos
    ensures ptr.Valid() && ptr.Contents() == old(ptr.Contents())
      + MoofBox(old(ptr.offset), sequenceNumber, baseMediaDecodeTime, defaultSampleDuration, samples, count)
    ensures pos.sequenceNumber == old(ptr.offset) + 20
    ensures pos.baseMediaDecodeTime == old(ptr.offset) + 72
    ensures pos.baseDataOffset == old(pos.baseDataOffset)
  {
    ghost var c0 := ptr.Contents();
    var start := BeginBox(ptr, Ascii("moof"));
    ghost var h := ptr.Contents();
    WriteMfhd(ptr, pos, sequenceNumber);
    ghost var acc := MfhdBox(sequenceNumber);
    var dataOffset := WriteTraf(ptr, pos, sequenceNumber, baseDataOffset, baseMediaDecodeTime,
      defaultSampleDuration, samples, count);
    ghost var d := DataOffsetValue(start, count);
    if dataOffset.dataOffsetPresent {
      ptr.PutU32BeToOffset(dataOffset.offset, ToU32(ptr.offset + 4 + 4));
      PatchTraf(h, acc, baseMediaDecodeTime, defaultSampleDuration, samples, count, d);
    }
    acc := Extend(h, acc, TrafBox(baseMediaDecodeTime, defaultSampleDuration, samples, count, d));
    EndBox(ptr, start, c0, Ascii("moof"), acc);
  }

  /** The data offset patch of write_moof, on the whole buffer. */
  lemma PatchTraf(h: seq<byte>, mfhd: seq<byte>, bmdt: u64, dsd: u32, samples: seq<SampleInfo>, count: nat, d: u32)
    requires 1 <= |samples| && count <= |samples| && count < TWO32 && |mfhd| == 16
    ensures Splice(h + mfhd + TrafBox(bmdt, dsd, samples, count, 0), |h| + 88, BE32(d))
      == h + mfhd + TrafBox(bmdt, dsd, samples, count, d)
  {
    TrafSplit(bmdt, dsd, samples, count, 0);
    TrafSplit(bmdt, dsd, samples, count, d);
    var pre := h + mfhd + TrafHead(bmdt, dsd, samples, count);
    var fields := SampleFields(samples[..count]);
    SpliceField(pre, BE32(0), fields, BE32(d));
  }

  /** moof around its sequence number at 20 and its decode time at 72,
      the two fields set_mp4_state rewrites. */
  ghost function MoofFront(count: nat): (r: seq<byte>)
    ensures |r| == 20
  {
    BE32(ToU32(100 + 16 * count)) + Ascii("moof") + (BE32(16) + Ascii("mfhd") + [0, 0, 0, 0])
  }

  ghost function MoofMiddle(dsd: u32, samples: seq<SampleInfo>, count: nat): (r: seq<byte>)
    requires 1 <= |samples|
    ensures |r| == 48
  {
    BE32(ToU32(76 + 16 * count)) + Ascii("traf") + TfhdBox(samples[0].size, dsd)
      + (BE32(20) + Ascii("tfdt") + [1, 0, 0, 0])
  }

  ghost function MoofBack(start: nat, samples: seq<SampleInfo>, count: nat): (r: seq<byte>)
    requires count <= |samples| && count < TWO32
  {
    BE32(ToU32(20 + 16 * count)) + Ascii("trun") + [0, 0, 0x0F, 0x01] + BE32(count)
      + BE32(DataOffsetValue(start, count)) + SampleFields(samples[..count])
  }

  lemma MoofSplit(start: nat, seqNo: u32, bmdt: u64, dsd: u32, samples: seq<SampleInfo>, count: nat)
    requires 1 <= |samples| && count <= |samples| && count < TWO32
    ensures MoofBox(start, seqNo, bmdt, dsd, samples, count)
      == MoofFront(count) + BE32(seqNo) + MoofMiddle(dsd, samples, count) + BE64(bmdt)
        + MoofBack(start, samples, count)
  {
    var d := DataOffsetValue(start, count);
    var trun := TrunBox(samples, count, d);
    var tfdt := TfdtBox(bmdt);
    assert tfdt == (BE32(20) + Ascii("tfdt") + [1, 0, 0, 0]) + BE64(bmdt);
    assert trun == MoofBack(start, samples, count);
    var mfhd := MfhdBox(seqNo);
    assert mfhd == (BE32(16) + Ascii("mfhd") + [0, 0, 0, 0]) + BE32(seqNo);
  }

  /** The two patches of set_mp4_state turn a moof into the moof with the
      new sequence number and decode time, and change nothing else. */
  lemma MoofPatch(start: nat, seq0: u32, bmdt0: u64, seqNo: u32, bmdt: u64, dsd: u32,
                  samples: seq<SampleInfo>, count: nat)
    requires 1 <= |samples| && count <= |samples| && count < TWO32
    ensures Splice(Splice(MoofBox(start, seq0, bmdt0, dsd, samples, count), 20, BE32(seqNo)), 72, BE64(bmdt))
      == MoofBox(start, seqNo, bmdt, dsd, samples, count)
  {
    MoofSplit(start, seq0, bmdt0, dsd, samples, count);
    MoofSplit(start, seqNo, bmdt, dsd, samples, count);
    SpliceTwo(MoofFront(count), BE32(seq0), MoofMiddle(dsd, samples, count), BE64(bmdt0),
      MoofBack(start, samples, count), BE32(seqNo), BE64(bmdt));
  }

  /** Overwriting two fields x0 and y0, in either order of the rest. */
  lemma SpliceTwo(a: seq<byte>, x0: seq<byte>, b: seq<byte>, y0: seq<byte>, c: seq<byte>,
                  x: seq<byte>, y: seq<byte>)
    requires |x0| == |x| && |y0| == |y|
    ensures Splice(Splice(a + x0 + b + y0 + c, |a|, x), |a| + |x| + |b|, y) == a + x + b + y + c
  {
    assert a + x0 + b + y0 + c == a + x0 + (b + y0 + c);
    SpliceField(a, x0, b + y0 + c, x);
    assert a + x + (b + y0 + c) == (a + x + b) + y0 + c;
    SpliceField(a + x + b, y0, c, y);
  }

  /** write_mfhd: records where the sequence number goes. */
  method WriteMfhd(ptr: BitBuf, pos: FragmentPositions, sequenceNumber: u32)
    requires ptr.Valid()
    modifies ptr, pos
    ensures ptr.Valid() && ptr.Contents() == old(ptr.Contents()) + MfhdBox(sequenceNumber)
    ensures pos.sequenceNumber == old(ptr.offset) + 12
    ensures pos.baseDataOffset == old(pos.baseDataOffset)
    ensures pos.baseMediaDecodeTime == old(pos.baseMediaDecodeTime)
  {
    ghost var c0 := ptr.Contents();
    var start := BeginBox(ptr, Ascii("mfhd"));
    ghost var h := ptr.Contents();
    PutVersionFlags(ptr, 0, 0, 0, 0);
    ghost var acc: seq<byte> := [0, 0, 0, 0];
    pos.sequenceNumber := ptr.offset;
    ptr.PutU32Be(sequenceNumber); acc := Extend(h, acc, BE32(sequenceNumber));
    EndBox(ptr, start, c0, Ascii("mfhd"), acc);
  }

  /** write_traf: tfhd, tfdt and trun; returns where the data offset is. */
  method WriteTraf(ptr: BitBuf, pos: FragmentPositions, sequenceNumber: u32, baseDataOffset: u64,
                   baseMediaDecodeTime: u64, defaultSampleDuration: u32,
                   samples: seq<SampleInfo>, count: u32) returns (dataOffset: DataOffsetPos)
    requires ptr.Valid() && 1 <= |samples| && count <= |samples|
    modifies ptr, pos
    ensures ptr.Valid() && ptr.Contents() == old(ptr.Contents())
      + TrafBox(baseMediaDecodeTime, defaultSampleDuration, samples, count, 0)
    ensures dataOffset == DataOffsetPos(true, old(ptr.offset) + 72)
    ensures pos.baseMediaDecodeTime == old(ptr.offset) + 48
    ensures pos.sequenceNumber == old(pos.sequenceNumber)
    ensures pos.baseDataOffset == old(pos.baseDataOffset)
  {
    ghost var c0 := ptr.Contents();
    var start := BeginBox(ptr, Ascii("traf"));
    ghost var h := ptr.Contents();
    WriteTfhd(ptr, pos, sequenceNumber, baseDataOffset, baseMediaDecodeTime, samples[0].size,
      defaultSampleDuration, samples, count);
    ghost var acc := TfhdBox(samples[0].size, defaultSampleDuration);
    WriteTfdt(ptr, pos, baseMediaDecodeTime); acc := Extend(h, acc, TfdtBox(baseMediaDecodeTime));
    dataOffset := WriteTrun(ptr, samples, count);
    acc := Extend(h, acc, TrunBox(samples, count, 0));
    EndBox(ptr, start, c0, Ascii("traf"), acc);
  }

  /** write_tfhd. With base-data-offset absent, pos_base_data_offset is
      left as it was. */
  method WriteTfhd(ptr: BitBuf, pos: FragmentPositions, sequenceNumber: u32, baseDataOffset: u64,
                   baseMediaDecodeTime: u64, defaultSampleSize: u32, defaultSampleDuration: u32,
                   samples: seq<SampleInfo>, count: u32)
    requires ptr.Valid()
    modifies ptr
    ensures ptr.Valid() && ptr.Contents() == old(ptr.Contents()) + TfhdBox(defaultSampleSize, defaultSampleDuration)
  {
    ghost var c0 := ptr.Contents();
    var start := BeginBox(ptr, Ascii("tfhd"));
    ghost var h := ptr.Contents();
    var flags := TfhdFlags;
    FlagBytes();
    PutVersionFlags(ptr, 0, ToU8(flags / 0x1_0000), ToU8(flags / 0x100), ToU8(flags));
    ghost var acc: seq<byte> := [0, 0, 0, 0x38];
    ptr.PutU32Be(1); acc := Extend(h, acc, BE32(1));
    ptr.PutU32Be(defaultSampleDuration); acc := Extend(h, acc, BE32(defaultSampleDuration));
    ptr.PutU32Be(defaultSampleSize); acc := Extend(h, acc, BE32(defaultSampleSize));
    ptr.PutU32Be(16842752); acc := Extend(h, acc, BE32(16842752));
    EndBox(ptr, start, c0, Ascii("tfhd"), acc);
  }

  /** write_tfdt: version 1, a 64-bit decode time whose position is
      recorded. */
  method WriteTfdt(ptr: BitBuf, pos: FragmentPositions, baseMediaDecodeTime: u64)
    requires ptr.Valid()
    modifies ptr, pos
    ensures ptr.Valid() && ptr.Contents() == old(ptr.Contents()) + TfdtBox(baseMediaDecodeTime)
    ensures pos.baseMediaDecodeTime == old(ptr.offset) + 12
    ensures pos.sequenceNumber == old(pos.sequenceNumber)
    ensures pos.baseDataOffset == old(pos.baseDataOffset)
  {
    ghost var c0 := ptr.Contents();
    var start := BeginBox(ptr, Ascii("tfdt"));
    ghost var h := ptr.Contents();
    PutVersionFlags(ptr, 1, 0, 0, 0);
    ghost var acc: seq<byte> := [1, 0, 0, 0];
    pos.baseMediaDecodeTime := ptr.offset;
    ptr.PutU64Be(baseMediaDecodeTime); acc := Extend(h, acc, BE64(baseMediaDecodeTime));
    EndBox(ptr, start, c0, Ascii("tfdt"), acc);
  }

  /** write_trun: the run header, a zero data offset to be patched, and
      the fields of the first count samples. */
  method WriteTrun(ptr: BitBuf, samples: seq<SampleInfo>, count: u32) returns (dataOffset: DataOffsetPos)
    requires ptr.Valid() && count <= |samples|
    modifies ptr
    ensures ptr.Valid() && ptr.Contents() == old(ptr.Contents()) + TrunBox(samples, count, 0)
    ensures dataOffset == DataOffsetPos(true, old(ptr.offset) + 16)
  {
    ghost var c0 := ptr.Contents();
    var start := BeginBox(ptr, Ascii("trun"));
    ghost var h := ptr.Contents();
    var flags := TrunFlags;
    FlagBytes();
    PutVersionFlags(ptr, 0, ToU8(flags / 0x1_0000), ToU8(flags / 0x100), ToU8(flags));
    ghost var acc: seq<byte> := [0, 0, 0x0F, 0x01];
    ptr.PutU32Be(count); acc := Extend(h, acc, BE32(count));
    dataOffset := DataOffsetPos(true, ptr.offset);
    ptr.PutI32Be(0); acc := Extend(h, acc, BE32(0));
    ghost var pre := h + acc;
    ghost var fields: seq<byte> := [];
    var i: nat := 0;
    while i < count
      invariant i <= count && fields == SampleFields(samples[..i])
      invariant ptr.Valid() && ptr.Contents() == pre + fields
    {
      var sampleInfo := samples[i];
      PutSample(ptr, sampleInfo);
      assert samples[..i + 1][..i] == samples[..i];
      fields := Extend(pre, fields, SampleBytes(sampleInfo));
      i := i + 1;
    }
    acc := Extend(h, acc, fields);
    EndBox(ptr, start, c0, Ascii("trun"), acc);
  }

  /** The body of the sample loop of write_trun. */
  method PutSample(ptr: BitBuf, sampleInfo: SampleInfo)
    requires ptr.Valid()
    modifies ptr
    ensures ptr.Valid() && ptr.Contents() == old(ptr.Contents()) + SampleBytes(sampleInfo)
  {
    ghost var c0 := ptr.Contents();
    ptr.PutU32Be(sampleInfo.duration);
    ghost var acc := BE32(sampleInfo.duration);
    ptr.PutU32Be(sampleInfo.size); acc := Extend(c0, acc, BE32(sampleInfo.size));
    ptr.PutU32Be(sampleInfo.flags); acc := Extend(c0, acc, BE32(sampleInfo.flags));
    ptr.PutI32Be(AsI32(sampleInfo.compositionOffset));
    acc := Extend(c0, acc, BE32(sampleInfo.compositionOffset));
  }
}
