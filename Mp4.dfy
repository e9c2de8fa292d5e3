/** The fragmented MP4 muxer of the H.264 encoder: a context that keeps the
    last SPS and PPS, builds the initialisation segment once both are known,
    and writes one moof and one mdat per coded slice; and the stream state
    whose sequence number, data offset and decode time advance from one
    fragment to the next. */
module Mp4 {
  import opened Bytes
  import opened Mp4BitBuf
  import opened Mp4Moov
  import opened Mp4Moof
  import opened Mp4Nal

  /** default_sample_size: the length of one frame in timescale ticks. */
  const DefaultSampleSize: u32 := 40000

  /** 72 dpi as 16.16 fixed point. */
  const Dpi72: u32 := 0x00480000

  /** The sample flags of a sample that is not a sync sample
      (sample_is_non_sync_sample, bit 16). */
  const NonSyncSample: u32 := 65536

  /** The sample set_slice describes: the NAL unit with its 4-byte length
      prefix, one frame long, and a sync sample exactly when the unit is a
      slice of an IDR picture. */
  function SliceSample(nalLen: u32, unitType: int): (r: SampleInfo)
    ensures r.size == ToU32(nalLen + 4)
    ensures r.duration == DefaultSampleSize && r.decodeTime == DefaultSampleSize
      && r.compositionOffset == DefaultSampleSize
    ensures r.flags % NonSyncSample == 0
    ensures (r.flags / NonSyncSample) % 2 == 1 <==> unitType != CodedSliceIdr
  {
    SampleInfo(DefaultSampleSize, DefaultSampleSize, 0, DefaultSampleSize, ToU32(nalLen + 4),
      if unitType == CodedSliceIdr then 0 else NonSyncSample)
  }

  /** The moof that set_slice writes with the given sequence number and
      decode time. */
  function SliceMoof(nalLen: u32, unitType: int, sequenceNumber: u32, baseMediaDecodeTime: u64): (r: seq<byte>)
    ensures |r| == 116
  {
    MoofBox(0, sequenceNumber, baseMediaDecodeTime, DefaultSampleSize, [SliceSample(nalLen, unitType)], 1)
  }

  /** A put_*_to_offset at a recorded position, which set_mp4_state skips
      while the position is 0. */
  function Patch(b: seq<byte>, at: nat, x: seq<byte>, strict: bool): (r: seq<byte>)
  {
    if at > 0 then Splice(Reserved(b, at + |x|, strict), at, x) else b
  }

  /** A patch inside the written bytes splices them. */
  lemma PatchWritten(b: seq<byte>, o: nat, at: nat, x: seq<byte>, strict: bool)
    requires o <= |b| && 0 < at && at + |x| <= o
    ensures |Patch(b, at, x, strict)| >= o
    ensures Patch(b, at, x, strict)[..o] == Splice(b[..o], at, x)
  {
    var g := Reserved(b, at + |x|, strict);
    SplicePatches(b, g, o, at, x);
  }

  /** The moof buffer after set_mp4_state's writes of a sequence number and
      two 64-bit times at their positions. */
  ghost function StatePatched(b: seq<byte>, seqPos: nat, bdoPos: nat, bmdtPos: nat,
                              sq: u32, bdo: u64, bmdt: u64): seq<byte>
  {
    Patch(Patch(Patch(b, seqPos, BE32(sq), false), bdoPos, BE64(bdo), true), bmdtPos, BE64(bmdt), true)
  }

  /** struct Mp4State. */
  class Mp4State {
    var headerSent: bool
    var sequenceNumber: u32
    var baseDataOffset: u64
    var baseMediaDecodeTime: u64
    var defaultSampleDuration: u32
    var nalsCount: u32

    constructor (defaultSampleDuration: u32)
      ensures !headerSent && sequenceNumber == 0 && baseDataOffset == 0 && baseMediaDecodeTime == 0
      ensures this.defaultSampleDuration == defaultSampleDuration && nalsCount == 0
    {
      headerSent, sequenceNumber, baseDataOffset, baseMediaDecodeTime := false, 0, 0, 0;
      this.defaultSampleDuration, nalsCount := defaultSampleDuration, 0;
    }
  }

  /** struct Mp4Context: the two 128-byte parameter-set buffers with their
      lengths, the picture size and rate, and the three output buffers. */
  class Mp4Context {
    const bufSps: array<byte>
    var bufSpsLen: u16
    const bufPps: array<byte>
    var bufPpsLen: u16
    var w: u16
    var h: u16
    var framerate: u16
    const bufHeader: BitBuf
    const bufMoof: BitBuf
    const bufMdat: BitBuf

    ghost predicate Valid()
      reads this, bufHeader, bufMoof, bufMdat
    {
      bufSps.Length == 128 && bufPps.Length == 128 && bufSps != bufPps
      && bufSpsLen <= 128 && bufPpsLen <= 128
      && bufHeader != bufMoof && bufHeader != bufMdat && bufMoof != bufMdat
      && bufHeader.Valid() && bufMoof.Valid() && bufMdat.Valid()
    }

    constructor (w: u16, h: u16, framerate: u16)
      ensures Valid() && fresh(bufSps) && fresh(bufPps)
      ensures fresh(bufHeader) && fresh(bufMoof) && fresh(bufMdat)
      ensures this.w == w && this.h == h && this.framerate == framerate
      ensures bufSpsLen == 0 && bufPpsLen == 0
      ensures bufHeader.Contents() == [] && bufMoof.Contents() == [] && bufMdat.Contents() == []
    {
      bufSps := new byte[128];
      bufPps := new byte[128];
      bufSpsLen, bufPpsLen := 0, 0;
      this.w, this.h, this.framerate := w, h, framerate;
      bufHeader := new BitBuf();
      bufMoof := new BitBuf();
      bufMdat := new BitBuf();
    }

    /** The MoovInfo create_header fills in: the picture size, 72 dpi, a
        zero creation time, a timescale of one frame in 40000 ticks, and
        the stored parameter sets. */
    function Info(): (r: MoovInfo)
      reads this, bufSps, bufPps
      requires bufSps.Length == 128 && bufPps.Length == 128
      requires bufSpsLen <= 128 && bufPpsLen <= 128
      ensures ValidInfo(r)
    {
      MoovInfo(0, 0, bufSps[..], bufSpsLen, bufPps[..], bufPpsLen, w, h, Dpi72, Dpi72, 0,
        DefaultSampleSize * framerate)
    }

    /** The header buffer after create_header: the header, when the buffer
        was empty and both parameter sets are known; otherwise unchanged. */
    ghost predicate HeaderCreated(offset0: int, buf0: seq<byte>)
      reads this, bufHeader, bufSps, bufPps
      requires bufSps.Length == 128 && bufPps.Length == 128
      requires bufSpsLen <= 128 && bufPpsLen <= 128
    {
      if offset0 == 0 && bufSpsLen > 0 && bufPpsLen > 0
      then bufHeader.Valid() && bufHeader.Contents() == Header(Info())
      else bufHeader.buf == buf0 && bufHeader.offset == offset0
    }

    /** create_header. */
    method CreateHeader()
      requires Valid()
      modifies bufHeader
      ensures Valid() && HeaderCreated(old(bufHeader.offset), old(bufHeader.buf))
    {
      if bufHeader.offset > 0 {
        return;
      }
      if bufSpsLen == 0 {
        return;
      }
      if bufPpsLen == 0 {
        return;
      }
      var info := Info();
      bufHeader.offset := 0;
      WriteHeader(bufHeader, info);
    }

    /** set_sps: keeps the parameter set and tries to build the header. */
    method SetSps(nalData: seq<byte>, nalLen: u32)
      requires Valid() && nalLen <= |nalData| && nalLen <= 128
      modifies this, bufSps, bufHeader
      ensures Valid()
      ensures bufSps[..nalLen] == nalData[..nalLen] && bufSps[nalLen..] == old(bufSps[nalLen..])
      ensures bufSpsLen == nalLen && bufPpsLen == old(bufPpsLen)
      ensures w == old(w) && h == old(h) && framerate == old(framerate)
      ensures HeaderCreated(old(bufHeader.offset), old(bufHeader.buf))
    {
      forall i | 0 <= i < nalLen {
        bufSps[i] := nalData[i];
      }
      bufSpsLen := nalLen;
      CreateHeader();
    }

    /** set_pps: keeps the parameter set and tries to build the header. */
    method SetPps(nalData: seq<byte>, nalLen: u32)
      requires Valid() && nalLen <= |nalData| && nalLen <= 128
      modifies this, bufPps, bufHeader
      ensures Valid()
      ensures bufPps[..nalLen] == nalData[..nalLen] && bufPps[nalLen..] == old(bufPps[nalLen..])
      ensures bufPpsLen == nalLen && bufSpsLen == old(bufSpsLen)
      ensures w == old(w) && h == old(h) && framerate == old(framerate)
      ensures HeaderCreated(old(bufHeader.offset), old(bufHeader.buf))
    {
      forall i | 0 <= i < nalLen {
        bufPps[i] := nalData[i];
      }
      bufPpsLen := nalLen;
      CreateHeader();
    }

    /** set_slice: a fragment of one sample, the moof and the mdat each
        written from the start of its buffer. */
    method SetSlice(pos: FragmentPositions, nalData: seq<byte>, origlen: u32, nalLen: u32, unitType: int)
      requires Valid() && nalLen <= |nalData|
      modifies bufMoof, bufMdat, pos
      ensures Valid()
      ensures bufMoof.Contents() == SliceMoof(nalLen, unitType, 0, 0)
      ensures bufMdat.Contents() == MdatBox(nalData, origlen, nalLen)
      ensures pos.sequenceNumber == 20 && pos.baseMediaDecodeTime == 72
      ensures pos.baseDataOffset == old(pos.baseDataOffset)
    {
      var samplesInfo := [SliceSample(nalLen, unitType)];
      bufMoof.offset := 0;
      WriteMoof(bufMoof, pos, 0, 0, 0, DefaultSampleSize, samplesInfo, 1);
      bufMdat.offset := 0;
      WriteMdat(bufMdat, nalData, origlen, nalLen);
    }

    /** set_mp4_state: writes the state's sequence number and times at the
        recorded positions, then advances the state to the next fragment. */
    method SetMp4State(pos: FragmentPositions, state: Mp4State)
      requires Valid()
      modifies bufMoof, state
      ensures Valid() && bufMoof.offset == old(bufMoof.offset)
      ensures bufMoof.buf == StatePatched(old(bufMoof.buf), pos.sequenceNumber, pos.baseDataOffset,
        pos.baseMediaDecodeTime, old(state.sequenceNumber), old(state.baseDataOffset),
        old(state.baseMediaDecodeTime))
      ensures state.sequenceNumber == ToU32(old(state.sequenceNumber) + 1)
      ensures state.baseDataOffset
        == ToU64(old(state.baseDataOffset) + ToU32(bufMoof.offset + bufMdat.offset))
      ensures state.baseMediaDecodeTime
        == ToU64(old(state.baseMediaDecodeTime) + old(state.defaultSampleDuration))
      ensures state.headerSent == old(state.headerSent) && state.nalsCount == old(state.nalsCount)
      ensures state.defaultSampleDuration == old(state.defaultSampleDuration)
    {
      PatchState(pos.sequenceNumber, pos.baseDataOffset, pos.baseMediaDecodeTime,
        state.sequenceNumber, state.baseDataOffset, state.baseMediaDecodeTime);
      state.sequenceNumber := ToU32(state.sequenceNumber + 1);
      state.baseDataOffset := ToU64(state.baseDataOffset + ToU32(bufMoof.offset + bufMdat.offset));
      state.baseMediaDecodeTime := ToU64(state.baseMediaDecodeTime + state.defaultSampleDuration);
    }

    /** The three writes of set_mp4_state at the nonzero positions. */
    method PatchState(seqPos: nat, bdoPos: nat, bmdtPos: nat, sq: u32, bdo: u64, bmdt: u64)
      requires Valid()
      modifies bufMoof
      ensures Valid() && bufMoof.offset == old(bufMoof.offset)
      ensures bufMoof.buf == StatePatched(old(bufMoof.buf), seqPos, bdoPos, bmdtPos, sq, bdo, bmdt)
    {
      ghost var b0 := bufMoof.buf;
      if seqPos > 0 {
        bufMoof.PutU32BeToOffset(seqPos, sq);
      }
      ghost var b1 := Patch(b0, seqPos, BE32(sq), false);
      assert bufMoof.buf == b1;
      if bdoPos > 0 {
        bufMoof.PutU64BeToOffset(bdoPos, bdo);
      }
      ghost var b2 := Patch(b1, bdoPos, BE64(bdo), true);
      assert bufMoof.buf == b2;
      if bmdtPos > 0 {
        bufMoof.PutU64BeToOffset(bmdtPos, bmdt);
      }
    }

    /** get_header: the caller's BitBuf takes the header buffer. */
    method GetHeader(ptr: BitBuf)
      requires Valid()
      modifies ptr
      ensures ptr.buf == old(bufHeader.buf) && ptr.offset == old(bufHeader.offset)
      ensures ptr.Valid() && ptr.Contents() == old(bufHeader.Contents())
    {
      ptr.buf := bufHeader.buf;
      ptr.offset := bufHeader.offset;
    }

    /** get_moof. */
    method GetMoof(ptr: BitBuf)
      requires Valid()
      modifies ptr
      ensures ptr.buf == old(bufMoof.buf) && ptr.offset == old(bufMoof.offset)
      ensures ptr.Valid() && ptr.Contents() == old(bufMoof.Contents())
    {
      ptr.buf := bufMoof.buf;
      ptr.offset := bufMoof.offset;
    }

    /** get_mdat. */
    method GetMdat(ptr: BitBuf)
      requires Valid()
      modifies ptr
      ensures ptr.buf == old(bufMdat.buf) && ptr.offset == old(bufMdat.offset)
      ensures ptr.Valid() && ptr.Contents() == old(bufMdat.Contents())
    {
      ptr.buf := bufMdat.buf;
      ptr.offset := bufMdat.offset;
    }
  }

  // ---- properties across calls ----

  /** Once written, the header is not empty, so create_header never writes
      it again. */
  lemma HeaderOnce(info: MoovInfo)
    requires ValidInfo(info)
    ensures |Header(info)| > 0
  {
  }

  /** The fragment of one slice, moof followed by mdat: the run's data
      offset points just past the mdat header, where the sample begins,
      and from there to the end are the nalLen + 4 bytes that trun gives
      as the sample size: the length field and the NAL unit. */
  lemma SliceFragment(nalData: seq<byte>, origlen: u32, nalLen: u32, unitType: int, sq: u32, t: u64)
    requires nalLen <= |nalData| && nalLen + 12 < TWO32
    ensures var moof := SliceMoof(nalLen, unitType, sq, t);
      var f := moof + MdatBox(nalData, origlen, nalLen);
      f[96..100] == BE32(|moof| + 8) && f[104..108] == BE32(nalLen + 4)
      && |f| - (|moof| + 8) == nalLen + 4
      && f[|moof| + 8..] == BE32(origlen) + nalData[..nalLen]
  {
    var moof := SliceMoof(nalLen, unitType, sq, t);
    var mdat := MdatBox(nalData, origlen, nalLen);
    SliceMoofFields(nalLen, unitType, sq, t);
    SliceOfFront(moof, mdat, 96, 100);
    SliceOfFront(moof, mdat, 104, 108);
    BoxLayout(Ascii("mdat"), BE32(origlen) + nalData[..nalLen]);
    var f := moof + mdat;
    assert f[|moof| + 8..] == mdat[8..];
  }

  /** The data offset and the sample size in the moof of one slice. */
  lemma SliceMoofFields(nalLen: u32, unitType: int, sq: u32, t: u64)
    requires nalLen + 4 < TWO32
    ensures var moof := SliceMoof(nalLen, unitType, sq, t);
      moof[96..100] == BE32(124) && moof[104..108] == BE32(nalLen + 4)
  {
    var x := SliceSample(nalLen, unitType);
    var moof := SliceMoof(nalLen, unitType, sq, t);
    assert x.size == nalLen + 4;
    MoofParts(0, sq, t, DefaultSampleSize, [x], 1);
    assert DataOffsetValue(0, 1) == 124;
    assert moof[96..100] == BE32(124);
    SampleSizeAt(moof, x);
  }

  lemma SampleSizeAt(m: seq<byte>, x: SampleInfo)
    requires |m| == 116 && m[100..] == SampleFields([x][..1])
    ensures m[104..108] == BE32(x.size)
  {
    assert [x][..1] == [x];
    assert SampleFields([x]) == SampleFields([]) + SampleBytes(x);
    SliceIn(m, 100, 116, 4, 8);
    assert m[100..116] == m[100..];
    SliceMid(BE32(x.duration), BE32(x.size), BE32(x.flags));
    SliceOfFront(BE32(x.duration) + BE32(x.size) + BE32(x.flags), BE32(x.compositionOffset), 4, 8);
  }

  /** set_mp4_state after set_slice: with the recorded positions, patching
      the moof written with zeros gives the moof written with the state's
      sequence number and decode time. */
  lemma StatePatchesMoof(b: seq<byte>, o: nat, nalLen: u32, unitType: int, sq: u32, bdo: u64, t: u64)
    requires o <= |b| && b[..o] == SliceMoof(nalLen, unitType, 0, 0)
    ensures var p := StatePatched(b, 20, 0, 72, sq, bdo, t);
      |p| >= o && p[..o] == SliceMoof(nalLen, unitType, sq, t)
  {
    var samples := [SliceSample(nalLen, unitType)];
    var p1 := Patch(b, 20, BE32(sq), false);
    PatchWritten(b, o, 20, BE32(sq), false);
    PatchWritten(p1, o, 72, BE64(t), true);
    MoofPatch(0, 0, 0, sq, t, DefaultSampleSize, samples, 1);
  }
}
