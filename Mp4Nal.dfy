/** The H.264 network abstraction layer helpers of the MP4 muxer: the one
    byte NAL unit header (section 7.3.1 of ITU-T H.264), the names of the
    unit types of Table 7-1, and the Annex B start code tests. */
module Mp4Nal {
  import opened Bytes

  /** The unit types with a name (enum NalUnitType). */
  const CodedSliceIdr: nat := 5

  predicate Named(t: int)
  {
    0 <= t <= 13 || t == 19
  }

  /** nal_type_to_str. */
  function NalTypeToStr(t: int): (r: string)
  {
    if t == 0 then "Unspecified"
    else if t == 1 then "CodedSliceNonIdr"
    else if t == 2 then "CodedSliceDataPartitionA"
    else if t == 3 then "CodedSliceDataPartitionB"
    else if t == 4 then "CodedSliceDataPartitionC"
    else if t == 5 then "CodedSliceIdr"
    else if t == 6 then "SEI"
    else if t == 7 then "SPS"
    else if t == 8 then "PPS"
    else if t == 9 then "AUD"
    else if t == 10 then "EndOfSequence"
    else if t == 11 then "EndOfStream"
    else if t == 12 then "Filler"
    else if t == 13 then "SpsExt"
    else if t == 19 then "CodedSliceAux"
    else "Unknown"
  }

  /** Exactly the unnamed types (14..18, 20..31 and anything else) are
      reported as "Unknown". */
  lemma UnknownNames(t: int)
    ensures NalTypeToStr(t) == "Unknown" <==> !Named(t)
  {
  }

  /** The type a name stands for, -1 for "Unknown". */
  function NalTypeOfName(s: string): int
  {
    if s == "Unspecified" then 0
    else if s == "CodedSliceNonIdr" then 1
    else if s == "CodedSliceDataPartitionA" then 2
    else if s == "CodedSliceDataPartitionB" then 3
    else if s == "CodedSliceDataPartitionC" then 4
    else if s == "CodedSliceIdr" then 5
    else if s == "SEI" then 6
    else if s == "SPS" then 7
    else if s == "PPS" then 8
    else if s == "AUD" then 9
    else if s == "EndOfSequence" then 10
    else if s == "EndOfStream" then 11
    else if s == "Filler" then 12
    else if s == "SpsExt" then 13
    else if s == "CodedSliceAux" then 19
    else -1
  }

  /** The name of a named type identifies it, so different named types
      have different names. */
  lemma NameRoundTrip(t: int, u: int)
    ensures Named(t) ==> NalTypeOfName(NalTypeToStr(t)) == t
    ensures Named(t) && Named(u) && t != u ==> NalTypeToStr(t) != NalTypeToStr(u)
  {
    NameOfType(t);
    NameOfType(u);
  }

  lemma NameOfType(t: int)
    ensures Named(t) ==> NalTypeOfName(NalTypeToStr(t)) == t
  {
  }

  /** The fields of struct NAL that nal_parse_header sets. */
  datatype NalHeader = NalHeader(forbiddenZeroBit: bool, refIdc: nat, unitType: nat)

  /** nal_parse_header: bit 7, bits 6..5 and bits 4..0 of the first byte;
      `(b & 0x80) >> 7`, `(b & 0x60) >> 5` and `b & 0x1f` of a byte are
      its quotient by 128, its quotient by 32 modulo 4, and its remainder
      modulo 32. The C argument is a plain char; masking its promoted
      value gives the same bits whether char is signed or not. */
  function ParseHeader(firstByte: byte): (r: NalHeader)
    ensures r.refIdc < 4 && r.unitType < 32
  {
    NalHeader(firstByte / 128 == 1, (firstByte / 32) % 4, firstByte % 32)
  }

  /** The header byte with the given fields. */
  function HeaderByte(h: NalHeader): byte
    requires h.refIdc < 4 && h.unitType < 32
  {
    (if h.forbiddenZeroBit then 128 else 0) + 32 * h.refIdc + h.unitType
  }

  /** Parsing the header byte of a header gives back that header ... */
  lemma HeaderRoundTrip(h: NalHeader)
    requires h.refIdc < 4 && h.unitType < 32
    ensures ParseHeader(HeaderByte(h)) == h
  {
    var x := HeaderByte(h);
    var f := if h.forbiddenZeroBit then 1 else 0;
    var q := 4 * f + h.refIdc;
    assert x == q * 32 + h.unitType;
    DivModUnique(q, 32, h.unitType);
    DivModUnique(f, 4, h.refIdc);
    assert x / 128 == f;
  }

  /** ... and every byte is the header byte of its parse. */
  lemma ByteRoundTrip(firstByte: byte)
    ensures HeaderByte(ParseHeader(firstByte)) == firstByte
  {
    var q := firstByte / 32;
    assert firstByte == 32 * q + firstByte % 32;
    assert q == 4 * (q / 4) + q % 4;
    assert q / 4 == if firstByte >= 128 then 1 else 0;
  }

  // ---- Annex B start codes ----

  /** nal_chk3: the three-byte start code 00 00 01 is at offset. */
  predicate NalChk3(buf: seq<byte>, offset: nat)
    requires offset + 3 <= |buf|
  {
    buf[offset] == 0x00 && buf[offset + 1] == 0x00 && buf[offset + 2] == 0x01
  }

  /** nal_chk4: a three- or four-byte start code is at offset. The fourth
      byte is read only after three zero bytes. */
  predicate NalChk4(buf: seq<byte>, offset: nat)
    requires offset + 3 <= |buf|
    requires buf[offset] == 0 && buf[offset + 1] == 0 && buf[offset + 2] == 0 ==> offset + 4 <= |buf|
  {
    (buf[offset] == 0x00 && buf[offset + 1] == 0x00 && buf[offset + 2] == 0x01)
    || (buf[offset] == 0x00 && buf[offset + 1] == 0x00 && buf[offset + 2] == 0x00 && buf[offset + 3] == 0x01)
  }

  /** The start codes of Annex B. */
  const StartCode3: seq<byte> := [0, 0, 1]
  const StartCode4: seq<byte> := [0, 0, 0, 1]

  lemma NalChk3Spec(buf: seq<byte>, offset: nat)
    requires offset + 3 <= |buf|
    ensures NalChk3(buf, offset) <==> buf[offset..offset + 3] == StartCode3
  {
    if buf[offset..offset + 3] == StartCode3 {
      assert buf[offset + 2] == buf[offset..offset + 3][2];
    }
  }

  /** nal_chk4 holds exactly at either start code, and the two cannot both
      begin at the same offset. */
  lemma NalChk4Spec(buf: seq<byte>, offset: nat)
    requires offset + 3 <= |buf|
    requires buf[offset] == 0 && buf[offset + 1] == 0 && buf[offset + 2] == 0 ==> offset + 4 <= |buf|
    ensures NalChk4(buf, offset) <==>
      buf[offset..offset + 3] == StartCode3
      || (offset + 4 <= |buf| && buf[offset..offset + 4] == StartCode4)
    ensures NalChk3(buf, offset) ==> NalChk4(buf, offset)
    ensures !(buf[offset..offset + 3] == StartCode3
      && offset + 4 <= |buf| && buf[offset..offset + 4] == StartCode4)
  {
    NalChk3Spec(buf, offset);
    if offset + 4 <= |buf| && buf[offset..offset + 4] == StartCode4 {
      assert buf[offset + 3] == buf[offset..offset + 4][3];
      assert buf[offset + 2] == buf[offset..offset + 4][2];
    }
  }

  /** A unit that follows a start code: nal_chk4 sees the code of either
      length. */
  lemma StartCodeFound(code: seq<byte>, rest: seq<byte>)
    requires code == StartCode3 || code == StartCode4
    ensures NalChk4(code + rest, 0)
    ensures NalChk3(code + rest, 0) <==> code == StartCode3
  {
    var s := code + rest;
    assert s[0] == code[0] && s[1] == code[1] && s[2] == code[2];
    if code == StartCode4 {
      assert s[3] == code[3];
    }
  }
}
