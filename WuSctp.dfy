/** The SCTP packet codec of the WebRTC data-channel server (section 3 of
    RFC 4960): a 12-byte common header followed by chunks, each a 4-byte
    chunk header and a value padded to a multiple of four bytes. */
module WuSctp {
  import opened Bytes
  import opened WuMath
  import opened WuBufferOp

  // ---- constants ----

  const DefaultBufferSpace: u32 := 0x4_0000   // 1 << 18
  const MinInitAckLength: u16 := 32

  const FlagEndFragment: byte := 0x01
  const FlagBeginFragment: byte := 0x02
  const FlagUnreliable: byte := 0x04
  const FlagCompleteUnreliable: byte := 0x07

  const CHUNK_DATA: byte := 0x00
  const CHUNK_INIT: byte := 0x01
  const CHUNK_INIT_ACK: byte := 0x02
  const CHUNK_SACK: byte := 0x03
  const CHUNK_HEARTBEAT: byte := 0x04
  const CHUNK_HEARTBEAT_ACK: byte := 0x05
  const CHUNK_ABORT: byte := 0x06
  const CHUNK_SHUTDOWN: byte := 0x07
  const CHUNK_COOKIE_ECHO: byte := 0x0A
  const CHUNK_COOKIE_ACK: byte := 0x0B
  const CHUNK_FORWARD_TSN: byte := 0xC0

  const PARAM_STATE_COOKIE: u16 := 0x07
  const PARAM_FORWARD_TSN: u16 := 0xC000

  // ---- data model ----

  datatype Packet = Packet(sourcePort: u16, destinationPort: u16,
                           verificationTag: u32, checkSum: u32)

  /** The union member of a chunk; which one is meaningful depends on the
      chunk type. A DATA payload or HEARTBEAT info is the byte run the
      chunk's pointer designates, so its length is the C length field. */
  datatype ChunkBody =
    | DataBody(tsn: u32, streamId: u16, streamSeq: u16, protoId: u32, userData: seq<byte>)
    | InitBody(initiateTag: u32, windowCredit: u32, numOutboundStreams: u16,
               numInboundStreams: u16, initialTsn: u32)
    | SackBody(cumulativeTsnAck: u32, advRecvWindow: u32, numGapAckBlocks: u16, numDupTsn: u16)
    | HeartbeatBody(info: seq<byte>)
    | ShutdownBody(cumulativeTsnAck: u32)
    | ForwardTsnBody(newCumulativeTsn: u32)
    | NoBody

  datatype Chunk = Chunk(chunkType: byte, flags: byte, length: u16, body: ChunkBody)

  function SctpDataChunkLength(userDataLength: int): (r: int)
    ensures r - userDataLength == 16
  {
    16 + userDataLength
  }

  function SctpChunkLength(contentLength: int): (r: int)
    ensures r - contentLength == 4
  {
    4 + contentLength
  }

  // ---- reading a received datagram ----

  /** The parser does not check its reads against the datagram length: a
      read past the end sees whatever memory follows. The model reads such
      bytes as zero. */
  function At(buf: seq<byte>, i: int): byte {
    if 0 <= i < |buf| then buf[i] else 0
  }

  /** The n bytes from o on, as a pointer into the datagram designates them. */
  function Window(buf: seq<byte>, o: int, n: nat): (r: seq<byte>)
    ensures |r| == n
    decreases n
  {
    if n == 0 then [] else [At(buf, o)] + Window(buf, o + 1, n - 1)
  }

  lemma {:induction false} WindowAt(buf: seq<byte>, o: int, n: nat, i: nat)
    requires i < n
    ensures Window(buf, o, n)[i] == At(buf, o + i)
    decreases n
  {
    if i > 0 {
      WindowAt(buf, o + 1, n - 1, i - 1);
    }
  }

  lemma WindowInside(buf: seq<byte>, o: int, n: nat)
    requires 0 <= o && o + n <= |buf|
    ensures Window(buf, o, n) == buf[o..o + n]
  {
    forall i | 0 <= i < n
      ensures Window(buf, o, n)[i] == buf[o..o + n][i]
    {
      WindowAt(buf, o, n, i);
    }
  }

  function Read16(buf: seq<byte>, o: int): u16 {
    (At(buf, o) as int) * 0x100 + At(buf, o + 1)
  }

  function Read32(buf: seq<byte>, o: int): u32 {
    Read16(buf, o) * TWO16 + Read16(buf, o + 2)
  }

  lemma Read16Inside(buf: seq<byte>, o: nat, v: u16)
    requires o + 2 <= |buf| && buf[o..o + 2] == BE16(v)
    ensures Read16(buf, o) == v
  {
    GetBE16At(buf, o, v);
  }

  lemma Read32Inside(buf: seq<byte>, o: nat, v: u32)
    requires o + 4 <= |buf| && buf[o..o + 4] == BE32(v)
    ensures Read32(buf, o) == v
  {
    GetBE32At(buf, o, v);
  }

  function HeaderAt(buf: seq<byte>): Packet {
    Packet(Read16(buf, 0), Read16(buf, 2), Read32(buf, 4), Read32(buf, 8))
  }

  /** HEARTBEAT info length: the parameter length minus its 4-byte header,
      clamped at zero as the DATA payload length is (see Findings). */
  function HeartbeatInfoLength(heartbeatLen: u16): (r: nat)
    ensures heartbeatLen >= 4 ==> r == heartbeatLen - 4
    ensures heartbeatLen < 4 ==> r == 0
  {
    Max(heartbeatLen as int - 4, 0)
  }

  /** The info length as WuSctp.cpp computes it: no clamp, so a parameter
      length below 4 gives a negative length, which the echo then hands to
      memcpy as a size. */
  function HeartbeatInfoLengthAsWritten(heartbeatLen: u16): (r: int)
    ensures r < 0 <==> heartbeatLen < 4
  {
    heartbeatLen as int - 4
  }

  /** A HEARTBEAT chunk whose info parameter claims length 0: the code as
      written derives -4 (a size of 2^64 - 4 once converted for memcpy),
      the clamped reading an empty info. */
  lemma HeartbeatUnderflow()
    ensures var buf: seq<byte> := seq(12, _ => 0) + [CHUNK_HEARTBEAT, 0, 0, 8, 0, 1, 0, 0];
      HeartbeatInfoLengthAsWritten(Read16(buf, 18)) == -4 &&
      ToU64(HeartbeatInfoLengthAsWritten(Read16(buf, 18))) == TWO64 - 4 &&
      ChunkAt(buf, 12).body == HeartbeatBody([])
  {
    var buf: seq<byte> := seq(12, _ => 0) + [CHUNK_HEARTBEAT, 0, 0, 8, 0, 1, 0, 0];
    assert At(buf, 18) == 0 && At(buf, 19) == 0 && At(buf, 12) == CHUNK_HEARTBEAT;
  }

  /** The chunk whose header starts at o. */
  function ChunkAt(buf: seq<byte>, o: int): (c: Chunk)
    ensures c.chunkType == At(buf, o) && c.flags == At(buf, o + 1) && c.length == Read16(buf, o + 2)
    ensures c.chunkType == CHUNK_DATA <==> c.body.DataBody?
    ensures c.chunkType == CHUNK_SACK <==> c.body.SackBody?
    ensures c.chunkType == CHUNK_HEARTBEAT <==> c.body.HeartbeatBody?
    ensures c.chunkType == CHUNK_INIT <==> c.body.InitBody?
    ensures c.body.DataBody? ==> |c.body.userData| == Max(c.length as int - 16, 0)
  {
    var t := At(buf, o);
    var len := Read16(buf, o + 2);
    var v := o + 4;
    var body :=
      if t == CHUNK_DATA then
        DataBody(Read32(buf, v), Read16(buf, v + 4), Read16(buf, v + 6), Read32(buf, v + 8),
                 Window(buf, v + 12, Max(len as int - 16, 0)))
      else if t == CHUNK_SACK then
        SackBody(Read32(buf, v), Read32(buf, v + 4), Read16(buf, v + 8), Read16(buf, v + 10))
      else if t == CHUNK_HEARTBEAT then
        HeartbeatBody(Window(buf, v + 4, HeartbeatInfoLength(Read16(buf, v + 2))))
      else if t == CHUNK_INIT then
        InitBody(Read32(buf, v), Read32(buf, v + 4), Read16(buf, v + 8), Read16(buf, v + 10),
                 Read32(buf, v + 12))
      else NoBody;
    Chunk(t, At(buf, o + 1), len, body)
  }

  /** Where the next chunk header starts: past the 4-byte chunk header and
      the value, length - 4 bytes padded to four. */
  function NextChunk(o: int, length: u16): (r: int)
    ensures length == 0 ==> r == o
    ensures 1 <= length <= 4 ==> r == o + 4
    ensures length >= 4 ==> length <= r - o < length + 4 && (r - o) % 4 == 0
    ensures r >= o
  {
    o + 4 + (length as int - 4) + Pad4(length as int - 4)
  }

  /** The chunks read from offset o, at most budget of them, while at least
      four bytes of the datagram remain; chunkAt reads one chunk header and
      its value. */
  function ChunksBy(chunkAt: (seq<byte>, int) -> Chunk, buf: seq<byte>, o: int, budget: nat)
      : (r: seq<Chunk>)
    decreases budget
  {
    if |buf| - o >= 4 && budget > 0 then
      [chunkAt(buf, o)] + ChunksBy(chunkAt, buf, NextChunk(o, chunkAt(buf, o).length), budget - 1)
    else []
  }

  function ChunksFrom(buf: seq<byte>, o: int, budget: nat): (r: seq<Chunk>)
  {
    ChunksBy(ChunkAt, buf, o, budget)
  }

  lemma ChunksByStep(chunkAt: (seq<byte>, int) -> Chunk, buf: seq<byte>, o: int, budget: nat)
    requires |buf| - o >= 4 && budget > 0
    ensures ChunksBy(chunkAt, buf, o, budget)
         == [chunkAt(buf, o)] + ChunksBy(chunkAt, buf, NextChunk(o, chunkAt(buf, o).length), budget - 1)
  {
  }

  lemma ChunksByEnd(chunkAt: (seq<byte>, int) -> Chunk, buf: seq<byte>, o: int, budget: nat)
    requires !(|buf| - o >= 4 && budget > 0)
    ensures ChunksBy(chunkAt, buf, o, budget) == []
  {
  }

  lemma {:induction false} ChunksByBound(chunkAt: (seq<byte>, int) -> Chunk, buf: seq<byte>,
                                         o: int, budget: nat)
    ensures |ChunksBy(chunkAt, buf, o, budget)| <= budget
    ensures budget > 0 && |buf| - o >= 4 ==> |ChunksBy(chunkAt, buf, o, budget)| >= 1
    decreases budget
  {
    if |buf| - o >= 4 && budget > 0 {
      ChunksByBound(chunkAt, buf, NextChunk(o, chunkAt(buf, o).length), budget - 1);
    }
  }

  /** The chunk loop of ParseSctpPacket: from offset 12, chunk after chunk,
      while four bytes remain and fewer than maxChunks have been read. */
  method ReadChunks(buf: seq<byte>, chunkAt: (seq<byte>, int) -> Chunk, maxChunks: nat)
      returns (chunks: seq<Chunk>)
    ensures chunks == ChunksBy(chunkAt, buf, 12, maxChunks)
    ensures |chunks| <= maxChunks
  {
    chunks := [];
    var offset := 12;
    var left := |buf| - offset;
    var chunkNum := 0;
    ghost var budget: nat := maxChunks;
    ghost var goal := ChunksBy(chunkAt, buf, 12, maxChunks);
    while left >= 4 && chunkNum < maxChunks
      invariant chunkNum == |chunks| <= maxChunks && budget == maxChunks - chunkNum
      invariant left == |buf| - offset
      invariant chunks + ChunksBy(chunkAt, buf, offset, budget) == goal
      decreases budget
    {
      var chunk := chunkAt(buf, offset);
      ghost var rest := ChunksBy(chunkAt, buf, NextChunk(offset, chunk.length), budget - 1);
      ChunksByStep(chunkAt, buf, offset, budget);
      AppendOne(chunks, chunk, rest);
      chunks := chunks + [chunk];
      chunkNum := chunkNum + 1;
      budget := budget - 1;
      offset := NextChunk(offset, chunk.length);
      left := |buf| - offset;
    }
    ChunksByEnd(chunkAt, buf, offset, budget);
  }

  lemma AppendOne<T>(a: seq<T>, x: T, r: seq<T>)
    ensures a + ([x] + r) == (a + [x]) + r
  {
  }

  /** ParseSctpPacket: false for a datagram shorter than 16 bytes; otherwise
      the common header and at most maxChunks chunks. The caller's chunk
      counter grows by the number of chunks returned. */
  method ParseSctpPacket(buf: seq<byte>, maxChunks: nat, nChunk: nat)
      returns (ok: bool, packet: Packet, chunks: seq<Chunk>, nChunkOut: nat)
    ensures ok <==> |buf| >= 16
    ensures ok ==> packet == HeaderAt(buf) && chunks == ChunksFrom(buf, 12, maxChunks)
    ensures !ok ==> chunks == [] && nChunkOut == nChunk
    ensures nChunkOut == nChunk + |chunks|
    ensures |chunks| <= maxChunks
  {
    if |buf| < 16 {
      return false, Packet(0, 0, 0, 0), [], nChunk;
    }
    packet := HeaderAt(buf);
    chunks := ReadChunks(buf, ChunkAt, maxChunks);
    nChunkOut := nChunk + |chunks|;
    ok := true;
  }

  // ---- writing a packet ----

  /** A byte of the serialised image: one the serialiser writes, or one it
      steps over (the padding after DATA and HEARTBEAT values), which keeps
      whatever the destination buffer held. */
  datatype Cell = Put(b: byte) | Skip

  function Puts(s: seq<byte>): (r: seq<Cell>)
    ensures |r| == |s|
  {
    if s == [] then [] else [Put(s[0])] + Puts(s[1..])
  }

  function Skips(n: nat): (r: seq<Cell>)
    ensures |r| == n
  {
    if n == 0 then [] else [Skip] + Skips(n - 1)
  }

  lemma {:induction false} PutsAt(s: seq<byte>, i: nat)
    requires i < |s|
    ensures Puts(s)[i] == Put(s[i])
  {
    if i > 0 {
      PutsAt(s[1..], i - 1);
    }
  }

  lemma {:induction false} PutsConcat(a: seq<byte>, b: seq<byte>)
    ensures Puts(a + b) == Puts(a) + Puts(b)
  {
    if a != [] {
      assert (a + b)[1..] == a[1..] + b;
      PutsConcat(a[1..], b);
      calc {
        Puts(a + b);
        [Put(a[0])] + Puts(a[1..] + b);
        [Put(a[0])] + (Puts(a[1..]) + Puts(b));
        ([Put(a[0])] + Puts(a[1..])) + Puts(b);
      }
    } else {
      assert a + b == b;
    }
  }

  /** base with the cells of t written over it, one at a time, from
      position at on. */
  function Overlay(base: seq<byte>, at: nat, t: seq<Cell>): (r: seq<byte>)
    requires at + |t| <= |base|
    ensures |r| == |base|
    decreases t
  {
    if t == [] then base
    else Overlay(if t[0].Put? then base[at := t[0].b] else base, at + 1, t[1..])
  }

  lemma {:induction false} OverlayAt(base: seq<byte>, at: nat, t: seq<Cell>, i: nat)
    requires at + |t| <= |base| && i < |base|
    ensures Overlay(base, at, t)[i]
         == if at <= i < at + |t| && t[i - at].Put? then t[i - at].b else base[i]
    decreases t
  {
    if t != [] {
      var b1 := if t[0].Put? then base[at := t[0].b] else base;
      OverlayAt(b1, at + 1, t[1..], i);
      if at + 1 <= i < at + |t| {
        assert t[1..][i - at - 1] == t[i - at];
      }
    }
  }

  lemma {:induction false} OverlayConcat(base: seq<byte>, at: nat, t1: seq<Cell>, t2: seq<Cell>)
    requires at + |t1| + |t2| <= |base|
    ensures Overlay(Overlay(base, at, t1), at + |t1|, t2) == Overlay(base, at, t1 + t2)
    decreases t1
  {
    if t1 == [] {
      assert t1 + t2 == t2;
    } else {
      var b1 := if t1[0].Put? then base[at := t1[0].b] else base;
      assert (t1 + t2)[0] == t1[0] && (t1 + t2)[1..] == t1[1..] + t2;
      OverlayConcat(b1, at + 1, t1[1..], t2);
    }
  }

  /** Laying u + v' + w over (u + v + w laid over base) at u's end, where v
      writes every byte, is laying u + v' + w over base. */
  lemma {:induction false} OverlayReplace(base: seq<byte>, u: seq<Cell>, v: seq<Cell>, v': seq<Cell>, w: seq<Cell>)
    requires |u + v + w| <= |base| && |v| == |v'|
    requires forall k :: 0 <= k < |v| ==> v[k].Put? && v'[k].Put?
    ensures Overlay(Overlay(base, 0, u + v + w), |u|, v') == Overlay(base, 0, u + v' + w)
  {
    var a := Overlay(Overlay(base, 0, u + v + w), |u|, v');
    var b := Overlay(base, 0, u + v' + w);
    forall i | 0 <= i < |base|
      ensures a[i] == b[i]
    {
      OverlayReplaceAt(base, u, v, v', w, i);
    }
  }

  /** OverlayReplace at the byte i. */
  lemma {:induction false} OverlayReplaceAt(base: seq<byte>, u: seq<Cell>, v: seq<Cell>, v': seq<Cell>, w: seq<Cell>, i: nat)
    requires |u + v + w| <= |base| && |v| == |v'| && i < |base|
    requires forall k :: 0 <= k < |v| ==> v[k].Put? && v'[k].Put?
    ensures Overlay(Overlay(base, 0, u + v + w), |u|, v')[i] == Overlay(base, 0, u + v' + w)[i]
  {
    var m := Overlay(base, 0, u + v + w);
    OverlayAt(m, |u|, v', i);
    if i < |u + v + w| {
      OverlayFront(base, u + v + w, i);
      OverlayFront(base, u + v' + w, i);
      CatIndex(u, v, w, i);
      CatIndex(u, v', w, i);
    } else {
      OverlayAt(base, 0, u + v + w, i);
      OverlayAt(base, 0, u + v' + w, i);
    }
  }

  /** The cell at index i of u + v + w. */
  lemma CatIndex(u: seq<Cell>, v: seq<Cell>, w: seq<Cell>, i: nat)
    requires i < |u + v + w|
    ensures (u + v + w)[i] ==
      if i < |u| then u[i] else if i < |u| + |v| then v[i - |u|] else w[i - |u| - |v|]
  {
  }

  /** The union member SerializeSctpPacket reads for a chunk type. When the
      caller filled in another member the C code reinterprets its bytes; the
      model then writes the fields of an all-zero member instead. */
  function AsData(b: ChunkBody): (r: ChunkBody)
    ensures r.DataBody? && (b.DataBody? ==> r == b)
  {
    if b.DataBody? then b else DataBody(0, 0, 0, 0, [])
  }

  function AsInit(b: ChunkBody): (r: ChunkBody)
    ensures r.InitBody? && (b.InitBody? ==> r == b)
  {
    if b.InitBody? then b else InitBody(0, 0, 0, 0, 0)
  }

  function AsSack(b: ChunkBody): (r: ChunkBody)
    ensures r.SackBody? && (b.SackBody? ==> r == b)
  {
    if b.SackBody? then b else SackBody(0, 0, 0, 0)
  }

  function AsHeartbeat(b: ChunkBody): (r: ChunkBody)
    ensures r.HeartbeatBody? && (b.HeartbeatBody? ==> r == b)
  {
    if b.HeartbeatBody? then b else HeartbeatBody([])
  }

  /** The fixed parameters every INIT ACK carries: a state cookie parameter
      of length 8 with value 0xB00B1E5, and an empty forward-TSN parameter. */
  const InitAckParams: seq<byte> :=
    BE16(PARAM_STATE_COOKIE) + BE16(8) + BE32(0xB00B1E5) + BE16(PARAM_FORWARD_TSN) + BE16(4)

  /** What the serialiser writes for one chunk: the chunk header, then the
      value the chunk type selects. Other chunk types get the header alone. */
  function ChunkCells(c: Chunk): (r: seq<Cell>)
    ensures |r| >= 4 && r[..4] == Puts([c.chunkType, c.flags] + BE16(c.length))
  {
    var head := Puts([c.chunkType, c.flags] + BE16(c.length));
    var value := ValueCells(c.chunkType, c.body);
    assert (head + value)[..4] == head;
    head + value
  }

  /** The value the serialiser writes after the chunk header, by type. */
  function ValueCells(t: byte, b: ChunkBody): seq<Cell> {
    if t == CHUNK_DATA then DataCells(AsData(b))
    else if t == CHUNK_INIT_ACK then InitAckCells(AsInit(b))
    else if t == CHUNK_SACK then SackCells(AsSack(b))
    else if t == CHUNK_HEARTBEAT || t == CHUNK_HEARTBEAT_ACK then HeartbeatCells(AsHeartbeat(b))
    else if t == CHUNK_SHUTDOWN then
      Puts(BE32(if b.ShutdownBody? then b.cumulativeTsnAck else 0))
    else if t == CHUNK_FORWARD_TSN then
      Puts(BE32(if b.ForwardTsnBody? then b.newCumulativeTsn else 0))
    else []
  }

  /** DATA: TSN, stream id, stream sequence number, payload protocol id, the
      payload, then the padding skipped. */
  function DataCells(d: ChunkBody): seq<Cell>
    requires d.DataBody?
  {
    Puts(BE32(d.tsn) + BE16(d.streamId) + BE16(d.streamSeq) + BE32(d.protoId) + d.userData)
      + Skips(Pad4(|d.userData|))
  }

  function InitAckCells(d: ChunkBody): seq<Cell>
    requires d.InitBody?
  {
    Puts(BE32(d.initiateTag) + BE32(d.windowCredit) + BE16(d.numOutboundStreams)
         + BE16(d.numInboundStreams) + BE32(d.initialTsn) + InitAckParams)
  }

  function SackCells(d: ChunkBody): seq<Cell>
    requires d.SackBody?
  {
    Puts(BE32(d.cumulativeTsnAck) + BE32(d.advRecvWindow) + BE16(d.numGapAckBlocks) + BE16(d.numDupTsn))
  }

  /** HEARTBEAT and HEARTBEAT ACK: one heartbeat-info parameter (type 1)
      whose length field counts its 4-byte header, the info, the padding. */
  function HeartbeatCells(d: ChunkBody): seq<Cell>
    requires d.HeartbeatBody?
  {
    Puts(BE16(1) + BE16(ToU16(|d.info| + 4)) + d.info) + Skips(Pad4(|d.info|))
  }

  /** The cells of every chunk, in order, each chunk's from cellsOf. */
  function Concat(cellsOf: Chunk -> seq<Cell>, cs: seq<Chunk>): seq<Cell>
  {
    if cs == [] then [] else Concat(cellsOf, cs[..|cs| - 1]) + cellsOf(cs[|cs| - 1])
  }

  lemma ConcatOne(cellsOf: Chunk -> seq<Cell>, c: Chunk)
    ensures Concat(cellsOf, [c]) == cellsOf(c)
  {
    assert [c][..0] == [];
    assert Concat(cellsOf, [c]) == [] + cellsOf(c);
  }

  function ChunksCells(cs: seq<Chunk>): seq<Cell>
  {
    Concat(ChunkCells, cs)
  }

  function HeaderBytes(p: Packet, crc: u32): (r: seq<byte>)
    ensures |r| == 12
  {
    BE16(p.sourcePort) + BE16(p.destinationPort) + BE32(p.verificationTag) + BE32(crc)
  }

  /** The whole image, with crc in the checksum field. */
  function PacketCells(p: Packet, cs: seq<Chunk>, crc: u32): (r: seq<Cell>)
  {
    Puts(HeaderBytes(p, crc)) + ChunksCells(cs)
  }

  method Write(dst: array<byte>, at: nat, t: seq<Cell>)
    requires at + |t| <= dst.Length
    modifies dst
    ensures dst[..] == Overlay(old(dst[..]), at, t)
  {
    ghost var before := dst[..];
    forall i | at <= i < at + |t| && t[i - at].Put? {
      dst[i] := t[i - at].b;
    }
    forall i | 0 <= i < dst.Length
      ensures dst[i] == Overlay(before, at, t)[i]
    {
      OverlayAt(before, at, t, i);
    }
  }

  lemma PatchChecksum(base: seq<byte>, p: Packet, cs: seq<Chunk>, crc: u32)
    requires |PacketCells(p, cs, 0)| <= |base|
    ensures Overlay(Overlay(base, 0, PacketCells(p, cs, 0)), 8, Puts(BE32(crc)))
         == Overlay(base, 0, PacketCells(p, cs, crc))
  {
    var u := Puts(BE16(p.sourcePort) + BE16(p.destinationPort) + BE32(p.verificationTag));
    PutsConcat(BE16(p.sourcePort) + BE16(p.destinationPort) + BE32(p.verificationTag), BE32(0));
    PutsConcat(BE16(p.sourcePort) + BE16(p.destinationPort) + BE32(p.verificationTag), BE32(crc));
    forall k | 0 <= k < 4
      ensures Puts(BE32(0))[k].Put? && Puts(BE32(crc))[k].Put?
    {
      PutsAt(BE32(0), k);
      PutsAt(BE32(crc), k);
    }
    OverlayReplace(base, u, Puts(BE32(0)), Puts(BE32(crc)), ChunksCells(cs));
  }

  /** The header cells, then the cells of every chunk in order; the number
      of cells written is returned. */
  method WriteCells(head: seq<Cell>, chunks: seq<Chunk>, cellsOf: Chunk -> seq<Cell>,
                    dst: array<byte>) returns (offset: nat)
    requires |head + Concat(cellsOf, chunks)| <= dst.Length
    modifies dst
    ensures offset == |head + Concat(cellsOf, chunks)|
    ensures dst[..] == Overlay(old(dst[..]), 0, head + Concat(cellsOf, chunks))
  {
    ghost var base := dst[..];
    Write(dst, 0, head);
    offset := |head|;
    var i := 0;
    assert chunks[..0] == [] && head + [] == head;
    while i < |chunks|
      invariant 0 <= i <= |chunks|
      invariant offset == |head + Concat(cellsOf, chunks[..i])| <= |head + Concat(cellsOf, chunks)|
      invariant dst[..] == Overlay(base, 0, head + Concat(cellsOf, chunks[..i]))
    {
      var t := cellsOf(chunks[i]);
      ghost var before := head + Concat(cellsOf, chunks[..i]);
      ConcatStep(head, cellsOf, chunks, i);
      Write(dst, offset, t);
      OverlayConcat(base, 0, before, t);
      offset := offset + |t|;
      i := i + 1;
    }
    assert chunks[..i] == chunks;
  }

  lemma ConcatStep(head: seq<Cell>, cellsOf: Chunk -> seq<Cell>, cs: seq<Chunk>, i: nat)
    requires i < |cs|
    ensures head + Concat(cellsOf, cs[..i + 1]) == head + Concat(cellsOf, cs[..i]) + cellsOf(cs[i])
    ensures |head + Concat(cellsOf, cs[..i + 1])| <= |head + Concat(cellsOf, cs)|
  {
    assert cs[..i + 1][..i] == cs[..i];
    PrefixShorter(cellsOf, cs, i + 1);
  }

  /** SerializeSctpPacket writes the common header with a zero checksum,
      every chunk in order, then the checksum of the bytes written (an
      abstract function here) at offset 8. It returns the bytes written. */
  method SerializeSctpPacket(packet: Packet, chunks: seq<Chunk>, dst: array<byte>,
                             crc32: seq<byte> -> u32) returns (n: nat)
    requires |PacketCells(packet, chunks, 0)| <= dst.Length
    modifies dst
    ensures n == |PacketCells(packet, chunks, 0)|
    ensures dst[..] == Overlay(old(dst[..]), 0,
      PacketCells(packet, chunks, crc32(Overlay(old(dst[..]), 0, PacketCells(packet, chunks, 0))[..n])))
  {
    ghost var base := dst[..];
    var offset := WriteCells(Puts(HeaderBytes(packet, 0)), chunks, ChunkCells, dst);
    var crc := crc32(dst[..offset]);
    Write(dst, 8, Puts(BE32(crc)));
    PatchChecksum(base, packet, chunks, crc);
    n := offset;
  }

  lemma {:induction false} PrefixShorter(cellsOf: Chunk -> seq<Cell>, cs: seq<Chunk>, k: nat)
    requires k <= |cs|
    ensures |Concat(cellsOf, cs[..k])| <= |Concat(cellsOf, cs)|
    decreases |cs| - k
  {
    if k < |cs| {
      PrefixShorter(cellsOf, cs, k + 1);
      assert cs[..k + 1][..k] == cs[..k];
    } else {
      assert cs[..k] == cs;
    }
  }

  // ---- the image in a zeroed buffer ----

  /** The bytes of an image written into a zero-filled buffer: skipped
      cells read as zero. */
  function Image(t: seq<Cell>): (r: seq<byte>)
    ensures |r| == |t|
  {
    if t == [] then [] else [if t[0].Put? then t[0].b else 0] + Image(t[1..])
  }

  lemma {:induction false} ImageAt(t: seq<Cell>, i: nat)
    requires i < |t|
    ensures Image(t)[i] == if t[i].Put? then t[i].b else 0
  {
    if i > 0 {
      ImageAt(t[1..], i - 1);
    }
  }

  /** What SerializeSctpPacket leaves in the zero-filled buffer WuSendSctp
      hands it. */
  lemma {:induction false} OverlayZeros(n: nat, t: seq<Cell>)
    requires |t| <= n
    ensures Overlay(Zeros(n), 0, t)[..|t|] == Image(t)
  {
    var z := Zeros(n);
    var o := Overlay(z, 0, t);
    forall i | 0 <= i < |t|
      ensures o[i] == Image(t)[i]
    {
      ImageAt(t, i);
      OverlayFront(z, t, i);
      assert z[i] == 0;
    }
    assert o[..|t|] == Image(t);
  }

  /** OverlayAt for an image laid at the start. */
  lemma {:induction false} OverlayFront(base: seq<byte>, t: seq<Cell>, i: nat)
    requires |t| <= |base| && i < |t|
    ensures Overlay(base, 0, t)[i] == if t[i].Put? then t[i].b else base[i]
  {
    OverlayAt(base, 0, t, i);
  }

  lemma {:induction false} ImageConcat(t1: seq<Cell>, t2: seq<Cell>)
    ensures Image(t1 + t2) == Image(t1) + Image(t2)
  {
    if t1 != [] {
      assert (t1 + t2)[1..] == t1[1..] + t2;
      ImageConcat(t1[1..], t2);
      var h: seq<byte> := [if t1[0].Put? then t1[0].b else 0];
      calc {
        Image(t1 + t2);
        h + Image(t1[1..] + t2);
        h + (Image(t1[1..]) + Image(t2));
        (h + Image(t1[1..])) + Image(t2);
      }
    } else {
      assert t1 + t2 == t2;
    }
  }

  lemma {:induction false} ImagePuts(s: seq<byte>)
    ensures Image(Puts(s)) == s
  {
    if s != [] {
      ImagePuts(s[1..]);
    }
  }

  lemma {:induction false} ImageSkips(n: nat)
    ensures Image(Skips(n)) == Zeros(n)
  {
    if n > 0 {
      ImageSkips(n - 1);
      assert Zeros(n) == [0] + Zeros(n - 1);
    }
  }

  lemma ReadField16(buf: seq<byte>, pre: seq<byte>, v: u16, post: seq<byte>)
    requires buf == pre + BE16(v) + post
    ensures Read16(buf, |pre|) == v
  {
    assert buf[|pre|..|pre| + 2] == BE16(v);
    Read16Inside(buf, |pre|, v);
  }

  lemma ReadField32(buf: seq<byte>, pre: seq<byte>, v: u32, post: seq<byte>)
    requires buf == pre + BE32(v) + post
    ensures Read32(buf, |pre|) == v
  {
    assert buf[|pre|..|pre| + 4] == BE32(v);
    Read32Inside(buf, |pre|, v);
  }

  /** A DATA chunk as WuSendData and the DataChannel ACK build it: its
      length field is SctpDataChunkLength of the payload length. */
  function DataChunk(flags: byte, tsn: u32, streamId: u16, streamSeq: u16, protoId: u32,
                     userData: seq<byte>): Chunk
    requires SctpDataChunkLength(|userData|) < TWO16
  {
    Chunk(CHUNK_DATA, flags, SctpDataChunkLength(|userData|),
          DataBody(tsn, streamId, streamSeq, protoId, userData))
  }

  /** The bytes of a one-chunk DATA packet, field by field. */
  lemma {:induction false} DataPacketImage(p: Packet, c: Chunk, crc: u32)
    requires c.chunkType == CHUNK_DATA && c.body.DataBody?
    ensures var d := c.body;
      Image(PacketCells(p, [c], crc))
        == HeaderBytes(p, crc) + ([CHUNK_DATA, c.flags] + BE16(c.length))
           + (BE32(d.tsn) + BE16(d.streamId) + BE16(d.streamSeq) + BE32(d.protoId))
           + d.userData + Zeros(Pad4(|d.userData|))
  {
    var d := c.body;
    var hdr := HeaderBytes(p, crc);
    var ch: seq<byte> := [CHUNK_DATA, c.flags] + BE16(c.length);
    var f := BE32(d.tsn) + BE16(d.streamId) + BE16(d.streamSeq) + BE32(d.protoId);
    var pad := Pad4(|d.userData|);
    ConcatOne(ChunkCells, c);
    assert ChunkCells(c) == Puts(ch) + DataCells(d);
    ImageConcat(Puts(hdr), ChunkCells(c));
    ImageConcat(Puts(ch), Puts(f + d.userData) + Skips(pad));
    ImageConcat(Puts(f + d.userData), Skips(pad));
    ImagePuts(hdr); ImagePuts(ch); ImagePuts(f + d.userData); ImageSkips(pad);
  }

  lemma HeaderOfImage(buf: seq<byte>, p: Packet, crc: u32, rest: seq<byte>)
    requires buf == HeaderBytes(p, crc) + rest
    ensures HeaderAt(buf) == Packet(p.sourcePort, p.destinationPort, p.verificationTag, crc)
  {
    var a, b, t := BE16(p.sourcePort), BE16(p.destinationPort), BE32(p.verificationTag);
    ReadField16(buf, [], p.sourcePort, b + t + BE32(crc) + rest);
    ReadField16(buf, a, p.destinationPort, t + BE32(crc) + rest);
    ReadField32(buf, a + b, p.verificationTag, BE32(crc) + rest);
    ReadField32(buf, a + b + t, crc, rest);
  }

  lemma {:induction false} DataChunkOfImage(buf: seq<byte>, hdr: seq<byte>, c: Chunk, z: seq<byte>)
    requires |hdr| == 12 && c.chunkType == CHUNK_DATA && c.body.DataBody?
    requires c.length == 16 + |c.body.userData|
    requires var d := c.body;
      buf == hdr + ([CHUNK_DATA, c.flags] + BE16(c.length))
             + (BE32(d.tsn) + BE16(d.streamId) + BE16(d.streamSeq) + BE32(d.protoId))
             + d.userData + z
    ensures ChunkAt(buf, 12) == c
  {
    DataFieldsOfImage(buf, hdr, c, z);
    WindowInside(buf, 28, |c.body.userData|);
  }

  /** The fields of the DATA chunk image, read back one by one. */
  lemma {:induction false} DataFieldsOfImage(buf: seq<byte>, hdr: seq<byte>, c: Chunk, z: seq<byte>)
    requires |hdr| == 12 && c.body.DataBody?
    requires var d := c.body;
      buf == hdr + ([CHUNK_DATA, c.flags] + BE16(c.length))
             + (BE32(d.tsn) + BE16(d.streamId) + BE16(d.streamSeq) + BE32(d.protoId))
             + d.userData + z
    ensures var d := c.body;
      At(buf, 12) == CHUNK_DATA && At(buf, 13) == c.flags && Read16(buf, 14) == c.length &&
      Read32(buf, 16) == d.tsn && Read16(buf, 20) == d.streamId &&
      Read16(buf, 22) == d.streamSeq && Read32(buf, 24) == d.protoId &&
      28 + |d.userData| <= |buf| && buf[28..28 + |d.userData|] == d.userData
  {
    var d := c.body;
    var n := |d.userData|;
    var ch: seq<byte> := [CHUNK_DATA, c.flags] + BE16(c.length);
    var a, b, q, r := BE32(d.tsn), BE16(d.streamId), BE16(d.streamSeq), BE32(d.protoId);
    var u := d.userData + z;
    ReadField16(buf, hdr + [CHUNK_DATA, c.flags], c.length, a + b + q + r + u);
    ReadField32(buf, hdr + ch, d.tsn, b + q + r + u);
    ReadField16(buf, hdr + ch + a, d.streamId, q + r + u);
    ReadField16(buf, hdr + ch + a + b, d.streamSeq, r + u);
    ReadField32(buf, hdr + ch + a + b + q, d.protoId, u);
    assert buf[28..28 + n] == d.userData;
    assert At(buf, 12) == CHUNK_DATA && At(buf, 13) == c.flags;
  }

  /** The layout DataPacketImage gives, read back. */
  lemma {:induction false} ParseDataLayout(buf: seq<byte>, p: Packet, c: Chunk, crc: u32, maxChunks: nat)
    requires c.chunkType == CHUNK_DATA && c.body.DataBody?
    requires c.length == 16 + |c.body.userData| && maxChunks >= 1
    requires var d := c.body;
      buf == HeaderBytes(p, crc) + ([CHUNK_DATA, c.flags] + BE16(c.length))
             + (BE32(d.tsn) + BE16(d.streamId) + BE16(d.streamSeq) + BE32(d.protoId))
             + d.userData + Zeros(Pad4(|d.userData|))
    ensures |buf| >= 16
    ensures HeaderAt(buf) == Packet(p.sourcePort, p.destinationPort, p.verificationTag, crc)
    ensures ChunksFrom(buf, 12, maxChunks) == [c]
  {
    var d := c.body;
    var ch: seq<byte> := [CHUNK_DATA, c.flags] + BE16(c.length);
    var f := BE32(d.tsn) + BE16(d.streamId) + BE16(d.streamSeq) + BE32(d.protoId);
    var z := Zeros(Pad4(|d.userData|));
    HeaderOfImage(buf, p, crc, ch + f + d.userData + z);
    DataChunkOfImage(buf, HeaderBytes(p, crc), c, z);
    assert |buf| == 28 + |d.userData| + Pad4(|d.userData|);
    DataNextChunk(|d.userData|, c.length);
    SingleChunk(buf, c, maxChunks);
  }

  lemma DataNextChunk(n: nat, length: u16)
    requires length as int == 16 + n
    ensures NextChunk(12, length) == 28 + n + Pad4(n)
  {
    assert (12 + n) % 4 == n % 4;
  }

  /** A datagram holding exactly one chunk after the common header. */
  lemma SingleChunk(buf: seq<byte>, c: Chunk, maxChunks: nat)
    requires |buf| >= 16 && maxChunks >= 1
    requires ChunkAt(buf, 12) == c && NextChunk(12, c.length) == |buf|
    ensures ChunksFrom(buf, 12, maxChunks) == [c]
  {
    ChunksByStep(ChunkAt, buf, 12, maxChunks);
    ChunksByEnd(ChunkAt, buf, |buf|, maxChunks - 1);
  }

  /** Round trip: parsing the bytes a one-chunk DATA packet serialises to
      (in the zeroed buffer the sender uses) gives back the ports, the tag,
      the checksum written and the chunk itself, payload included. */
  lemma DataPacketRoundTrip(p: Packet, flags: byte, tsn: u32, streamId: u16, streamSeq: u16,
                            protoId: u32, userData: seq<byte>, crc: u32, maxChunks: nat)
    requires SctpDataChunkLength(|userData|) < TWO16
    requires maxChunks >= 1
    ensures var c := DataChunk(flags, tsn, streamId, streamSeq, protoId, userData);
            var buf := Image(PacketCells(p, [c], crc));
            |buf| >= 16 &&
            HeaderAt(buf) == Packet(p.sourcePort, p.destinationPort, p.verificationTag, crc) &&
            ChunksFrom(buf, 12, maxChunks) == [c]
  {
    var c := DataChunk(flags, tsn, streamId, streamSeq, protoId, userData);
    DataPacketImage(p, c, crc);
    ParseDataLayout(Image(PacketCells(p, [c], crc)), p, c, crc, maxChunks);
  }
}
