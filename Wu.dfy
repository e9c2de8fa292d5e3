/** The WebUDP server: its table of clients, the SCTP association each
    client runs over DTLS, and the events it queues for the application.
    DTLS itself is abstracted: a client's `handshakeDone` stands for
    SSL_is_init_finished, and every SCTP packet the server sends is recorded,
    before serialisation and encryption, in the server's `sent` list. */
module Wu {
  import opened Bytes
  import opened WuMath
  import opened WuSctp
  import opened Wrappers

  // ---- constants ----

  const MaxClientTtl: real := 9.0
  const HeartbeatInterval: real := 4.0
  const DefaultMaxClients: int := 256
  const ArenaCapacity: int := 0x10_0000      // 1 << 20
  const EventQueueCapacity: int := 1024
  const MaxChunksPerPacket: nat := 8

  const DCMessageAck: byte := 0x02
  const DCMessageOpen: byte := 0x03

  const DCProtoControl: u32 := 50
  const DCProtoString: u32 := 51
  const DCProtoBinary: u32 := 53
  const DCProtoEmptyString: u32 := 56
  const DCProtoEmptyBinary: u32 := 57

  const WU_OK: int := 0
  const WU_ERROR: int := 1
  const WU_OUT_OF_MEMORY: int := 2

  // ---- data model ----

  datatype ClientState = Dead | WaitingRemoval | DTLSHandshake | SCTPEstablished | DataChannelOpen

  /** The enum's numeric value; the C code compares states with <. */
  function Rank(s: ClientState): (r: nat)
    ensures r <= 4
  {
    match s
    case Dead => 0
    case WaitingRemoval => 1
    case DTLSHandshake => 2
    case SCTPEstablished => 3
    case DataChannelOpen => 4
  }

  datatype Address = Address(host: u32, port: u16)

  /** The SCTP-level fields of a client that packet handling reads and
      writes. */
  datatype Conn = Conn(state: ClientState, remoteSctpPort: u16, verificationTag: u32,
                       remoteTsn: u32, tsn: u32, ttl: real)

  class Client {
    var address: Address
    var state: ClientState
    var localSctpPort: u16
    var remoteSctpPort: u16
    var sctpVerificationTag: u32
    var remoteTsn: u32
    var tsn: u32
    var ttl: real
    var nextHeartbeat: real
    /** Whether the DTLS handshake has completed (SSL_is_init_finished). */
    var handshakeDone: bool

    function View(): Conn
      reads this
    {
      Conn(state, remoteSctpPort, sctpVerificationTag, remoteTsn, tsn, ttl)
    }

    /** WuNewClient's zeroing followed by WuClientStart: a client waiting for
        its DTLS handshake, expecting the remote's first TSN, numbering its
        own TSNs from 1, with a full time-to-live. */
    constructor Start()
      ensures View() == Conn(DTLSHandshake, 0, 0, 0, 1, MaxClientTtl)
      ensures nextHeartbeat == HeartbeatInterval && address == Address(0, 0)
      ensures localSctpPort == 0 && !handshakeDone
    {
      address := Address(0, 0);
      localSctpPort := 0;
      state := DTLSHandshake;
      remoteSctpPort := 0;
      sctpVerificationTag := 0;
      remoteTsn := 0;
      tsn := 1;
      ttl := MaxClientTtl;
      nextHeartbeat := HeartbeatInterval;
      handshakeDone := false;
    }
  }

  datatype Event =
    | ClientJoin(client: Client)
    | ClientLeave(client: Client)
    | TextData(client: Client, data: seq<byte>)
    | BinaryData(client: Client, data: seq<byte>)

  /** A packet of one chunk, as WuSendSctp is handed it. The checksum field
      is left 0; the serialiser fills it in. */
  datatype Reply = Reply(packet: Packet, chunk: Chunk)

  datatype Outgoing = Outgoing(client: Client, reply: Reply)

  /** TLSSend writes only once the handshake has finished and the client is
      at least in the handshake state. */
  predicate Sendable(state: ClientState, handshakeDone: bool) {
    Rank(state) >= Rank(DTLSHandshake) && handshakeDone
  }

  // ---- handling one chunk ----

  /** What handling one chunk does: the client's new fields, the events
      queued, the replies attempted (all sent with the new state), and
      whether the chunk loop stops. */
  datatype Step = Step(conn: Conn, events: seq<Event>, replies: seq<Reply>, stop: bool)

  /** The reply header: ports swapped, the client's verification tag. */
  function Answer(hdr: Packet, tag: u32): Packet {
    Packet(hdr.destinationPort, hdr.sourcePort, tag, 0)
  }

  function SackChunk(cumulativeTsnAck: u32): Chunk {
    Chunk(CHUNK_SACK, 0, SctpChunkLength(12), SackBody(cumulativeTsnAck, DefaultBufferSpace, 0, 0))
  }

  /** The DATA_CHANNEL_ACK answering a DATA_CHANNEL_OPEN. */
  function AckChunk(tsn: u32, streamId: u16): Chunk {
    DataChunk(FlagCompleteUnreliable, tsn, streamId, 0, DCProtoControl, [DCMessageAck])
  }

  /** A DATA_CHANNEL_OPEN: remember the peer's port, mark the channel open
      (a join event the first time), and answer with an ACK numbered with
      the client's next TSN. c already carries the DATA chunk's updates. */
  function OpenStep(client: Client, c: Conn, hdr: Packet, streamId: u16): Step {
    Step(c.(remoteSctpPort := hdr.sourcePort, tsn := ToU32(c.tsn + 1), state := DataChannelOpen),
         if c.state != DataChannelOpen then [ClientJoin(client)] else [],
         [Reply(Answer(hdr, c.verificationTag), AckChunk(c.tsn, streamId))], false)
  }

  /** The event a DATA chunk that is not a control message raises. */
  function MessageEvents(client: Client, d: ChunkBody): seq<Event>
    requires d.DataBody?
  {
    if d.protoId == DCProtoString then [TextData(client, d.userData)]
    else if d.protoId == DCProtoBinary then [BinaryData(client, d.userData)]
    else []
  }

  predicate IsOpen(d: ChunkBody)
    requires d.DataBody?
  {
    d.protoId == DCProtoControl && At(d.userData, 0) == DCMessageOpen
  }

  function DataStep(client: Client, c: Conn, hdr: Packet, d: ChunkBody): (s: Step)
    requires d.DataBody?
    ensures !s.stop && s.conn.ttl == MaxClientTtl && s.conn.verificationTag == c.verificationTag
    ensures s.conn.remoteTsn == Max(d.tsn, c.remoteTsn)
    // every DATA chunk is acknowledged, last, by a SACK for the highest TSN seen
    ensures |s.replies| >= 1 &&
      s.replies[|s.replies| - 1] == Reply(Answer(hdr, c.verificationTag), SackChunk(s.conn.remoteTsn))
    // a DATA_CHANNEL_OPEN opens the channel, uses up one TSN for its ACK,
    // and raises a join only if the channel was not open yet
    ensures IsOpen(d) ==>
      s.conn.state == DataChannelOpen && s.conn.remoteSctpPort == hdr.sourcePort &&
      s.conn.tsn == ToU32(c.tsn + 1) && |s.replies| == 2 &&
      s.replies[0] == Reply(Answer(hdr, c.verificationTag), AckChunk(c.tsn, d.streamId)) &&
      s.events == (if c.state == DataChannelOpen then [] else [ClientJoin(client)])
    // any other DATA chunk only records its TSN and delivers text or binary
    ensures !IsOpen(d) ==>
      s.conn == c.(remoteTsn := s.conn.remoteTsn, ttl := MaxClientTtl) && |s.replies| == 1 &&
      s.events == (if d.protoId == DCProtoString then [TextData(client, d.userData)]
                   else if d.protoId == DCProtoBinary then [BinaryData(client, d.userData)]
                   else [])
  {
    var c1 := c.(remoteTsn := Max(d.tsn, c.remoteTsn), ttl := MaxClientTtl);
    var pre :=
      if IsOpen(d) then OpenStep(client, c1, hdr, d.streamId)
      else Step(c1, if d.protoId == DCProtoControl then [] else MessageEvents(client, d), [], false);
    Step(pre.conn, pre.events,
         pre.replies + [Reply(Answer(hdr, pre.conn.verificationTag), SackChunk(pre.conn.remoteTsn))],
         false)
  }

  function InitStep(c: Conn, hdr: Packet, d: ChunkBody, initAckTag: u32): (s: Step)
    requires d.InitBody?
    ensures s.stop && s.events == []
    // the association adopts the peer's tag, and the next TSN it expects is
    // the peer's initial TSN
    ensures s.conn == c.(verificationTag := d.initiateTag, remoteTsn := s.conn.remoteTsn)
    ensures ToU32(s.conn.remoteTsn + 1) == d.initialTsn
    // the INIT ACK mirrors the stream counts and offers the client's own TSN
    ensures |s.replies| == 1 && s.replies[0].packet == Answer(hdr, d.initiateTag)
    ensures var a := s.replies[0].chunk;
      a.chunkType == CHUNK_INIT_ACK && a.length == MinInitAckLength && a.body.InitBody? &&
      a.body.initiateTag == initAckTag && a.body.initialTsn == c.tsn &&
      a.body.numOutboundStreams == d.numInboundStreams &&
      a.body.numInboundStreams == d.numOutboundStreams
  {
    var c1 := c.(verificationTag := d.initiateTag, remoteTsn := ToU32(d.initialTsn - 1));
    assert ToU32(c1.remoteTsn + 1) == d.initialTsn by {
      if d.initialTsn == 0 { assert c1.remoteTsn == TWO32 - 1; }
    }
    var ack := Chunk(CHUNK_INIT_ACK, 0, MinInitAckLength,
                     InitBody(initAckTag, DefaultBufferSpace, d.numInboundStreams,
                              d.numOutboundStreams, c.tsn));
    Step(c1, [], [Reply(Answer(hdr, d.initiateTag), ack)], true)
  }

  /** The chunks that end WuHandleSctp's loop. */
  predicate Stops(ch: Chunk) {
    ch.chunkType == CHUNK_INIT || ch.chunkType == CHUNK_ABORT
  }

  /** The chunks that reset the client's time-to-live. */
  predicate KeepsAlive(ch: Chunk) {
    ch.chunkType in {CHUNK_DATA, CHUNK_HEARTBEAT, CHUNK_HEARTBEAT_ACK, CHUNK_SACK}
  }

  function CookieEchoStep(c: Conn, hdr: Packet): Step {
    var c1 := if Rank(c.state) < Rank(SCTPEstablished) then c.(state := SCTPEstablished) else c;
    Step(c1, [], [Reply(Answer(hdr, c.verificationTag),
                        Chunk(CHUNK_COOKIE_ACK, 0, SctpChunkLength(0), NoBody))], false)
  }

  function HeartbeatStep(c: Conn, hdr: Packet, ch: Chunk): Step {
    Step(c.(ttl := MaxClientTtl), [],
         [Reply(Answer(hdr, c.verificationTag),
                Chunk(CHUNK_HEARTBEAT_ACK, 0, ch.length, AsHeartbeat(ch.body)))], false)
  }

  function SackStep(c: Conn, hdr: Packet, d: ChunkBody): Step {
    var fwd := if AsSack(d).numGapAckBlocks > 0
               then [Reply(Answer(hdr, c.verificationTag),
                           Chunk(CHUNK_FORWARD_TSN, 0, SctpChunkLength(4), ForwardTsnBody(c.tsn)))]
               else [];
    Step(c.(ttl := MaxClientTtl), [], fwd, false)
  }

  /** The effect of one chunk on the client (WuHandleSctp's loop body).
      initAckTag is the random initiate tag an INIT ACK carries. */
  function ChunkStep(client: Client, c: Conn, hdr: Packet, ch: Chunk, initAckTag: u32): (s: Step)
    // exactly INIT and ABORT end the loop
    ensures s.stop <==> Stops(ch)
    ensures ch.chunkType == CHUNK_ABORT ==>
      s.conn == c.(state := WaitingRemoval) && s.events == [] && s.replies == []
    // the state only moves up, except on ABORT; COOKIE ECHO establishes
    ensures ch.chunkType != CHUNK_ABORT ==> Rank(s.conn.state) >= Rank(c.state)
    ensures ch.chunkType == CHUNK_COOKIE_ECHO ==> Rank(s.conn.state) >= Rank(SCTPEstablished)
    // only INIT resets the tag and the expected TSN
    ensures ch.chunkType != CHUNK_INIT ==>
      s.conn.verificationTag == c.verificationTag && s.conn.remoteTsn >= c.remoteTsn
    // DATA, HEARTBEAT, HEARTBEAT ACK and SACK reset the time-to-live
    ensures s.conn.ttl == (if KeepsAlive(ch) then MaxClientTtl else c.ttl)
    // only DATA raises events, and every reply answers the sender with the
    // association's tag
    ensures ch.chunkType != CHUNK_DATA ==> s.events == []
    ensures forall r :: r in s.replies ==> r.packet == Answer(hdr, s.conn.verificationTag)
  {
    var t := ch.chunkType;
    if t == CHUNK_DATA then DataStep(client, c, hdr, AsData(ch.body))
    else if t == CHUNK_INIT then InitStep(c, hdr, AsInit(ch.body), initAckTag)
    else if t == CHUNK_COOKIE_ECHO then CookieEchoStep(c, hdr)
    else if t == CHUNK_HEARTBEAT then HeartbeatStep(c, hdr, ch)
    else if t == CHUNK_HEARTBEAT_ACK then Step(c.(ttl := MaxClientTtl), [], [], false)
    else if t == CHUNK_ABORT then Step(c.(state := WaitingRemoval), [], [], true)
    else if t == CHUNK_SACK then SackStep(c, hdr, ch.body)
    else Step(c, [], [], false)
  }

  /** The replies of a step that TLSSend lets through. */
  function Kept(s: Step, handshakeDone: bool): seq<Reply> {
    if Sendable(s.conn.state, handshakeDone) then s.replies else []
  }

  /** The effect of handling a prefix of a packet's chunks: the client's
      fields, the events queued, the replies let through, and whether an
      INIT or an ABORT has ended the loop. */
  datatype Run = Run(conn: Conn, events: seq<Event>, replies: seq<Reply>, stopped: bool)

  /** The chunks of one packet handled in order by step; once a step
      stops the loop, the remaining chunks are ignored. */
  function RunBy(step: (Conn, Chunk) -> Step, handshakeDone: bool, c: Conn, chunks: seq<Chunk>): Run
    decreases |chunks|
  {
    if chunks == [] then Run(c, [], [], false)
    else
      var p := RunBy(step, handshakeDone, c, chunks[..|chunks| - 1]);
      if p.stopped then p
      else
        var s := step(p.conn, chunks[|chunks| - 1]);
        Run(s.conn, p.events + s.events, p.replies + Kept(s, handshakeDone), s.stop)
  }

  /** WuHandleSctp's loop body, for one client and one packet. */
  function StepOf(client: Client, hdr: Packet, initAckTag: u32): (Conn, Chunk) -> Step {
    (c: Conn, ch: Chunk) => ChunkStep(client, c, hdr, ch, initAckTag)
  }

  /** The chunks of one packet handled in order, up to the first INIT or
      ABORT. */
  function RunChunks(client: Client, handshakeDone: bool, c: Conn, hdr: Packet,
                     chunks: seq<Chunk>, initAckTag: u32): Run
  {
    RunBy(StepOf(client, hdr, initAckTag), handshakeDone, c, chunks)
  }

  /** The records of replies sent to one client. */
  function Tagged(client: Client, rs: seq<Reply>): (r: seq<Outgoing>)
    ensures |r| == |rs|
  {
    if rs == [] then [] else [Outgoing(client, rs[0])] + Tagged(client, rs[1..])
  }

  lemma {:induction false} TaggedConcat(client: Client, a: seq<Reply>, b: seq<Reply>)
    ensures Tagged(client, a + b) == Tagged(client, a) + Tagged(client, b)
  {
    if a != [] {
      assert (a + b)[1..] == a[1..] + b;
      TaggedConcat(client, a[1..], b);
    } else {
      assert a + b == b;
    }
  }

  /** The SHUTDOWN WuRemoveClient sends: the client's own ports and tag,
      acknowledging the last TSN received. */
  function ShutdownReply(localPort: u16, remotePort: u16, tag: u32, remoteTsn: u32): Reply {
    Reply(Packet(localPort, remotePort, tag, 0),
          Chunk(CHUNK_SHUTDOWN, 0, SctpChunkLength(4), ShutdownBody(remoteTsn)))
  }

  /** The HEARTBEAT WuSendHeartbeat sends; its info is the 8 bytes of the
      server's clock. */
  function HeartbeatReply(port: u16, remotePort: u16, tag: u32, timeBytes: seq<byte>): Reply {
    Reply(Packet(port, remotePort, tag, 0),
          Chunk(CHUNK_HEARTBEAT, FlagCompleteUnreliable, SctpChunkLength(4 + 8),
                HeartbeatBody(timeBytes)))
  }

  /** The DATA chunk WuSendData sends; the 16-bit length field truncates. */
  function DataReply(port: u16, remotePort: u16, tag: u32, tsn: u32, proto: u32,
                     data: seq<byte>): Reply {
    Reply(Packet(port, remotePort, tag, 0),
          Chunk(CHUNK_DATA, FlagCompleteUnreliable, ToU16(SctpDataChunkLength(|data|)),
                DataBody(tsn, 0, 0, proto, data)))
  }

  /** wu->maxClients: a non-positive request means the default 256. */
  function ClientLimit(maxClients: int): (r: int)
    ensures r > 0
    ensures maxClients > 0 ==> r == maxClients
    ensures maxClients <= 0 ==> r == DefaultMaxClients
  {
    if maxClients <= 0 then DefaultMaxClients else maxClients
  }

  /** WuRemoveClient's table update: the last client moves into slot i. */
  function SwapRemove(s: seq<Client>, i: nat): (r: seq<Client>)
    requires i < |s|
    ensures |r| == |s| - 1
    ensures i < |r| ==> r[i] == s[|s| - 1]
    ensures forall j :: 0 <= j < |r| && j != i ==> r[j] == s[j]
  {
    s[i := s[|s| - 1]][..|s| - 1]
  }

  lemma SwapRemoveContents(s: seq<Client>, i: nat)
    requires i < |s|
    ensures multiset(SwapRemove(s, i)) == multiset(s) - multiset{s[i]}
  {
    var n := |s|;
    var r := SwapRemove(s, i);
    if i == n - 1 {
      assert s == r + [s[n - 1]] by { assert r == s[..n - 1]; }
    } else {
      var a, b := s[..i], s[i + 1..n - 1];
      assert s == a + [s[i]] + b + [s[n - 1]];
      assert r == a + [s[n - 1]] + b;
    }
  }

  /** The index of the first client at address a, or -1. */
  function AddressIndex(cs: seq<Client>, a: Address): (r: int)
    reads set c | c in cs
    ensures -1 <= r < |cs|
    ensures r >= 0 ==> cs[r].address == a && forall j :: 0 <= j < r ==> cs[j].address != a
    ensures r == -1 <==> forall j :: 0 <= j < |cs| ==> cs[j].address != a
    decreases |cs|
  {
    if cs == [] then -1
    else if cs[0].address == a then 0
    else
      var k := AddressIndex(cs[1..], a);
      if k == -1 then -1 else k + 1
  }

  /** The slot holding client c, or -1. */
  function ClientIndex(cs: seq<Client>, c: Client): (r: int)
    ensures -1 <= r < |cs|
    ensures r >= 0 ==> cs[r] == c && forall j :: 0 <= j < r ==> cs[j] != c
    ensures r == -1 <==> c !in cs
    decreases |cs|
  {
    if cs == [] then -1
    else if cs[0] == c then 0
    else
      var k := ClientIndex(cs[1..], c);
      assert c in cs[1..] ==> c in cs;
      if k == -1 then -1 else k + 1
  }

  /** A heartbeat timer after dt seconds: it restarts at 4 seconds when it
      runs out. */
  function Rearmed(t: real, dt: real): (r: real)
    ensures r > 0.0
    ensures t - dt > 0.0 ==> r == t - dt
  {
    if t - dt <= 0.0 then HeartbeatInterval else t - dt
  }

  /** The heartbeat WuUpdateClients sends one client after dt seconds, if
      its timer runs out and TLSSend lets it through. */
  function DueHeartbeat(c: Client, dt: real, port: u16, timeBytes: seq<byte>): seq<Outgoing>
    reads c
  {
    if c.nextHeartbeat - dt <= 0.0 && Sendable(c.state, c.handshakeDone)
    then [Outgoing(c, HeartbeatReply(port, c.remoteSctpPort, c.sctpVerificationTag, timeBytes))]
    else []
  }

  /** The heartbeats WuUpdateClients sends, in table order. */
  function DueHeartbeats(cs: seq<Client>, dt: real, port: u16, timeBytes: seq<byte>)
      : seq<Outgoing>
    reads set c | c in cs
    decreases |cs|
  {
    if cs == [] then []
    else
      DueHeartbeats(cs[..|cs| - 1], dt, port, timeBytes) +
      DueHeartbeat(cs[|cs| - 1], dt, port, timeBytes)
  }

  /** A client is due for removal when its time-to-live has run out or it
      asked to leave. */
  predicate Expired(ttl: real, state: ClientState) {
    ttl <= 0.0 || state == WaitingRemoval
  }

  /** The ClientLeave events WuPurgeDeadClients queues, in table order. */
  function Leaves(cs: seq<Client>): seq<Event>
    reads set c | c in cs
    decreases |cs|
  {
    if cs == [] then []
    else
      var c := cs[|cs| - 1];
      Leaves(cs[..|cs| - 1]) + (if Expired(c.ttl, c.state) then [ClientLeave(c)] else [])
  }

  lemma {:induction false} LeavesExactly(cs: seq<Client>, c: Client)
    ensures ClientLeave(c) in Leaves(cs) <==> c in cs && Expired(c.ttl, c.state)
    decreases |cs|
  {
    if cs != [] {
      var init := cs[..|cs| - 1];
      LeavesExactly(init, c);
      assert cs == init + [cs[|cs| - 1]];
    }
  }

  class Server {
    var port: u16
    var maxClients: int
    var clients: seq<Client>
    /** The pending-event queue, oldest first. */
    var events: seq<Event>
    /** Every SCTP packet handed to DTLS, in order. */
    var sent: seq<Outgoing>

    ghost predicate Valid()
      reads this
    {
      maxClients > 0 && |clients| <= maxClients &&
      forall i, j :: 0 <= i < j < |clients| ==> clients[i] != clients[j]
    }

    constructor Init(port: u16, maxClients: int)
      ensures Valid()
      ensures this.port == port && this.maxClients == ClientLimit(maxClients)
      ensures clients == [] && events == [] && sent == []
    {
      this.port := port;
      this.maxClients := ClientLimit(maxClients);
      clients := [];
      events := [];
      sent := [];
    }

    /** WuSendSctp: the packet is recorded when TLSSend would write it. */
    method SendSctp(client: Client, r: Reply)
      modifies this`sent
      ensures sent == old(sent) + Tagged(client, if Sendable(client.state, client.handshakeDone) then [r] else [])
    {
      if Rank(client.state) >= Rank(DTLSHandshake) && client.handshakeDone {
        sent := sent + [Outgoing(client, r)];
      }
    }

    method PushEvent(e: Event)
      modifies this`events
      ensures events == old(events) + [e]
    {
      events := events + [e];
    }

    /** One pass of WuHandleSctp's loop: the branch for the chunk's type. */
    method HandleChunk(client: Client, hdr: Packet, ch: Chunk, initAckTag: u32,
                       ghost step: (Conn, Chunk) -> Step) returns (stop: bool)
      requires forall c, ch {:trigger ChunkStep(client, c, hdr, ch, initAckTag)} ::
        step(c, ch) == ChunkStep(client, c, hdr, ch, initAckTag)
      modifies client`state, client`remoteSctpPort, client`sctpVerificationTag, client`remoteTsn,
               client`tsn, client`ttl, this`events, this`sent
      ensures var s := step(old(client.View()), ch);
        client.View() == s.conn && stop == s.stop &&
        events == old(events) + s.events &&
        sent == old(sent) + Tagged(client, Kept(s, client.handshakeDone))
    {
      assert step(client.View(), ch) == ChunkStep(client, client.View(), hdr, ch, initAckTag);
      var t := ch.chunkType;
      stop := false;
      if t == CHUNK_DATA {
        HandleData(client, hdr, AsData(ch.body));
      } else if t == CHUNK_INIT {
        HandleInit(client, hdr, AsInit(ch.body), initAckTag);
        stop := true;
      } else if t == CHUNK_COOKIE_ECHO {
        if Rank(client.state) < Rank(SCTPEstablished) {
          client.state := SCTPEstablished;
        }
        SendSctp(client, Reply(Answer(hdr, client.sctpVerificationTag),
                               Chunk(CHUNK_COOKIE_ACK, 0, SctpChunkLength(0), NoBody)));
      } else if t == CHUNK_HEARTBEAT {
        var rc := Chunk(CHUNK_HEARTBEAT_ACK, 0, ch.length, AsHeartbeat(ch.body));
        client.ttl := MaxClientTtl;
        SendSctp(client, Reply(Answer(hdr, client.sctpVerificationTag), rc));
      } else if t == CHUNK_HEARTBEAT_ACK {
        client.ttl := MaxClientTtl;
      } else if t == CHUNK_ABORT {
        client.state := WaitingRemoval;
        stop := true;
      } else if t == CHUNK_SACK {
        client.ttl := MaxClientTtl;
        if AsSack(ch.body).numGapAckBlocks > 0 {
          SendSctp(client, Reply(Answer(hdr, client.sctpVerificationTag),
                                 Chunk(CHUNK_FORWARD_TSN, 0, SctpChunkLength(4),
                                       ForwardTsnBody(client.tsn))));
        }
      }
    }

    /** The DATA branch: track the highest TSN, answer a DATA_CHANNEL_OPEN,
        queue text and binary messages, and acknowledge with a SACK. */
    method HandleData(client: Client, hdr: Packet, d: ChunkBody)
      requires d.DataBody?
      modifies client`state, client`remoteSctpPort, client`remoteTsn, client`tsn, client`ttl,
               this`events, this`sent
      ensures var s := DataStep(client, old(client.View()), hdr, d);
        client.View() == s.conn &&
        events == old(events) + s.events &&
        sent == old(sent) + Tagged(client, Kept(s, client.handshakeDone))
    {
      client.remoteTsn := Max(d.tsn, client.remoteTsn);
      client.ttl := MaxClientTtl;
      ghost var c1 := client.View();
      ghost var pre: Step;
      if d.protoId == DCProtoControl {
        if At(d.userData, 0) == DCMessageOpen {
          pre := OpenStep(client, c1, hdr, d.streamId);
          HandleOpen(client, hdr, d.streamId);
        } else {
          pre := Step(c1, [], [], false);
        }
      } else {
        pre := Step(c1, MessageEvents(client, d), [], false);
        if d.protoId == DCProtoString {
          PushEvent(TextData(client, d.userData));
        } else if d.protoId == DCProtoBinary {
          PushEvent(BinaryData(client, d.userData));
        }
      }
      var sack := Reply(Answer(hdr, client.sctpVerificationTag), SackChunk(client.remoteTsn));
      SendSctp(client, sack);
      ghost var ok := Sendable(client.state, client.handshakeDone);
      TaggedConcat(client, if ok then pre.replies else [], if ok then [sack] else []);
    }

    /** The DATA_CHANNEL_OPEN branch. */
    method HandleOpen(client: Client, hdr: Packet, streamId: u16)
      modifies client`state, client`remoteSctpPort, client`tsn, this`events, this`sent
      ensures var s := OpenStep(client, old(client.View()), hdr, streamId);
        client.View() == s.conn &&
        events == old(events) + s.events &&
        sent == old(sent) + Tagged(client, Kept(s, client.handshakeDone))
    {
      client.remoteSctpPort := hdr.sourcePort;
      var response := Answer(hdr, client.sctpVerificationTag);
      var rc := AckChunk(client.tsn, streamId);
      client.tsn := ToU32(client.tsn + 1);
      if client.state != DataChannelOpen {
        client.state := DataChannelOpen;
        PushEvent(ClientJoin(client));
      }
      SendSctp(client, Reply(response, rc));
    }

    /** The INIT branch: adopt the peer's tag and TSN and answer with an
        INIT ACK carrying the new tag. */
    method HandleInit(client: Client, hdr: Packet, d: ChunkBody, initAckTag: u32)
      requires d.InitBody?
      modifies client`sctpVerificationTag, client`remoteTsn, this`sent
      ensures var s := InitStep(old(client.View()), hdr, d, initAckTag);
        client.View() == s.conn &&
        sent == old(sent) + Tagged(client, Kept(s, client.handshakeDone))
    {
      client.sctpVerificationTag := d.initiateTag;
      client.remoteTsn := ToU32(d.initialTsn - 1);
      var rc := Chunk(CHUNK_INIT_ACK, 0, MinInitAckLength,
                      InitBody(initAckTag, DefaultBufferSpace, d.numInboundStreams,
                               d.numOutboundStreams, client.tsn));
      SendSctp(client, Reply(Answer(hdr, d.initiateTag), rc));
    }
  
    /** WuCreate: the port, the client limit (256 when the request is not
        positive) and empty tables; a failure to set up the DTLS context
        gives WU_ERROR and no server. */
    static method Create(port: u16, maxClients: int, cryptoOk: bool) returns (status: int, wu: Server?)
      ensures cryptoOk <==> status == WU_OK
      ensures !cryptoOk ==> status == WU_ERROR && wu == null
      ensures cryptoOk ==> (wu != null && fresh(wu) && wu.Valid() && wu.port == port &&
                            wu.maxClients == ClientLimit(maxClients) &&
                            wu.clients == [] && wu.events == [] && wu.sent == [])
    {
      if !cryptoOk {
        return WU_ERROR, null;
      }
      wu := new Server.Init(port, maxClients);
      status := WU_OK;
    }

    /** WuHandleSctp: parse the packet and handle its chunks in order; a
        datagram too short to parse changes nothing. */
    method HandleSctp(client: Client, buf: seq<byte>, initAckTag: u32)
      modifies client`state, client`remoteSctpPort, client`sctpVerificationTag, client`remoteTsn,
               client`tsn, client`ttl, this`events, this`sent
      ensures |buf| < 16 ==>
        client.View() == old(client.View()) && events == old(events) && sent == old(sent)
      ensures |buf| >= 16 ==>
        var o := RunChunks(client, client.handshakeDone, old(client.View()), HeaderAt(buf),
                           ChunksFrom(buf, 12, MaxChunksPerPacket), initAckTag);
        client.View() == o.conn && events == old(events) + o.events &&
        sent == old(sent) + Tagged(client, o.replies)
    {
      var ok, hdr, chunks, nChunk := ParseSctpPacket(buf, MaxChunksPerPacket, 0);
      if ok {
        HandleChunkList(client, hdr, chunks, initAckTag, StepOf(client, hdr, initAckTag));
      }
    }

    /** WuHandleSctp's loop over the parsed chunks, left at an INIT or an
        ABORT. */
    method HandleChunkList(client: Client, hdr: Packet, chunks: seq<Chunk>, initAckTag: u32,
                           ghost step: (Conn, Chunk) -> Step)
      requires forall c, ch {:trigger ChunkStep(client, c, hdr, ch, initAckTag)} ::
        step(c, ch) == ChunkStep(client, c, hdr, ch, initAckTag)
      modifies client`state, client`remoteSctpPort, client`sctpVerificationTag, client`remoteTsn,
               client`tsn, client`ttl, this`events, this`sent
      ensures var o := RunBy(step, client.handshakeDone, old(client.View()), chunks);
        client.View() == o.conn && events == old(events) + o.events &&
        sent == old(sent) + Tagged(client, o.replies)
    {
      ghost var hd := client.handshakeDone;
      ghost var c0 := client.View();
      var n := 0;
      var stop := false;
      while n < |chunks| && !stop
        invariant 0 <= n <= |chunks|
        invariant var p := RunBy(step, hd, c0, chunks[..n]);
          client.View() == p.conn && stop == p.stopped &&
          events == old(events) + p.events && sent == old(sent) + Tagged(client, p.replies)
      {
        stop := HandleNext(client, hdr, chunks, n, initAckTag, step, c0, old(events), old(sent));
        n := n + 1;
      }
      if stop {
        RunStopped(step, hd, c0, chunks, n);
      } else {
        assert chunks[..n] == chunks;
      }
    }

    /** One pass of HandleChunkList's loop, from the state after chunks[..n]
        to the state after chunks[..n + 1]. */
    method HandleNext(client: Client, hdr: Packet, chunks: seq<Chunk>, n: nat, initAckTag: u32,
                      ghost step: (Conn, Chunk) -> Step,
                      ghost c0: Conn, ghost events0: seq<Event>, ghost sent0: seq<Outgoing>)
        returns (stop: bool)
      requires n < |chunks|
      requires forall c, ch {:trigger ChunkStep(client, c, hdr, ch, initAckTag)} ::
        step(c, ch) == ChunkStep(client, c, hdr, ch, initAckTag)
      requires var p := RunBy(step, client.handshakeDone, c0, chunks[..n]);
        client.View() == p.conn && !p.stopped &&
        events == events0 + p.events && sent == sent0 + Tagged(client, p.replies)
      modifies client`state, client`remoteSctpPort, client`sctpVerificationTag, client`remoteTsn,
               client`tsn, client`ttl, this`events, this`sent
      ensures var p := RunBy(step, client.handshakeDone, c0, chunks[..n + 1]);
        client.View() == p.conn && stop == p.stopped &&
        events == events0 + p.events && sent == sent0 + Tagged(client, p.replies)
    {
      ghost var hd := client.handshakeDone;
      ghost var p := RunBy(step, hd, c0, chunks[..n]);
      ghost var st := step(client.View(), chunks[n]);
      RunNext(step, hd, c0, chunks, n);
      stop := HandleChunk(client, hdr, chunks[n], initAckTag, step);
      TaggedConcat(client, p.replies, Kept(st, hd));
      AppendAssoc(events0, p.events, st.events);
      AppendAssoc(sent0, Tagged(client, p.replies), Tagged(client, Kept(st, hd)));
    }

    /** WuNewClient: a fresh client appended to the table, or nothing when
        all maxClients pool slots are taken. */
    method NewClient() returns (client: Client?)
      requires Valid()
      modifies this`clients
      ensures Valid()
      ensures client != null <==> |old(clients)| < maxClients
      ensures client == null ==> clients == old(clients)
      ensures client != null ==> (fresh(client) && clients == old(clients) + [client] &&
                                  client.View() == Conn(DTLSHandshake, 0, 0, 0, 1, MaxClientTtl) &&
                                  client.nextHeartbeat == HeartbeatInterval && !client.handshakeDone)
    {
      if |clients| >= maxClients {
        return null;
      }
      client := new Client.Start();
      clients := clients + [client];
    }

    /** WuRemoveClient: a SHUTDOWN to the client, which becomes Dead, and the
        last client moves into its slot; an unknown client changes nothing. */
    method RemoveClient(client: Client)
      requires Valid()
      modifies this`clients, this`sent, client`state
      ensures Valid()
      ensures client !in old(clients) ==>
        clients == old(clients) && sent == old(sent) && client.state == old(client.state)
      ensures client in old(clients) ==>
        clients == SwapRemove(old(clients), ClientIndex(old(clients), client)) &&
        (forall x :: x in clients <==> x in old(clients) && x != client) &&
        client.state == Dead &&
        sent == old(sent) + Tagged(client,
          if Sendable(old(client.state), client.handshakeDone)
          then [ShutdownReply(client.localSctpPort, client.remoteSctpPort,
                              client.sctpVerificationTag, client.remoteTsn)]
          else [])
    {
      var i := 0;
      while i < |clients|
        invariant 0 <= i <= |clients|
        invariant forall j :: 0 <= j < i ==> clients[j] != client
      {
        if clients[i] == client {
          SendSctp(client, ShutdownReply(client.localSctpPort, client.remoteSctpPort,
                                         client.sctpVerificationTag, client.remoteTsn));
          client.state := Dead;
          SwapRemoveContents(clients, i);
          SwapRemoveDistinct(clients, i);
          clients := SwapRemove(clients, i);
          return;
        }
        i := i + 1;
      }
    }

    /** WuFindClient: the first client at the address, or null. */
    method FindClient(address: Address) returns (client: Client?)
      ensures AddressIndex(clients, address) == -1 ==> client == null
      ensures AddressIndex(clients, address) >= 0 ==> client == clients[AddressIndex(clients, address)]
    {
      var i := 0;
      while i < |clients|
        invariant 0 <= i <= |clients|
        invariant forall j :: 0 <= j < i ==> clients[j].address != address
      {
        var c := clients[i];
        if c.address.host == address.host && c.address.port == address.port {
          return c;
        }
        i := i + 1;
      }
      return null;
    }

    /** WuUpdateClients after dt seconds: every client's ttl and heartbeat
        timer run down by dt; a timer that runs out restarts at 4 seconds
        and a HEARTBEAT carrying the clock's bytes goes out. */
    method UpdateClients(dt: real, timeBytes: seq<byte>)
      requires Valid()
      modifies clients`ttl, clients`nextHeartbeat, this`sent
      ensures sent == old(sent) + old(DueHeartbeats(clients, dt, port, timeBytes))
      ensures forall c :: c in clients ==>
        c.ttl == old(c.ttl) - dt && c.nextHeartbeat == Rearmed(old(c.nextHeartbeat), dt)
    {
      ghost var cs := clients;
      var i := 0;
      while i < |clients|
        invariant 0 <= i <= |clients| && clients == cs
        invariant sent == old(sent) + old(DueHeartbeats(cs[..i], dt, port, timeBytes))
        invariant forall j :: 0 <= j < i ==>
          cs[j].ttl == old(cs[j].ttl) - dt && cs[j].nextHeartbeat == Rearmed(old(cs[j].nextHeartbeat), dt)
        invariant forall j :: i <= j < |cs| ==>
          cs[j].ttl == old(cs[j].ttl) && cs[j].nextHeartbeat == old(cs[j].nextHeartbeat)
      {
        var c := clients[i];
        assert cs[..i + 1] == cs[..i] + [c];
        assert forall j :: 0 <= j < |cs| && j != i ==> cs[j] != c;
        Tick(c, dt, timeBytes);
        i := i + 1;
      }
      assert cs[..i] == cs;
    }

    /** One client's turn in WuUpdateClients. */
    method Tick(c: Client, dt: real, timeBytes: seq<byte>)
      modifies c`ttl, c`nextHeartbeat, this`sent
      ensures c.ttl == old(c.ttl) - dt && c.nextHeartbeat == Rearmed(old(c.nextHeartbeat), dt)
      ensures sent == old(sent) + old(DueHeartbeat(c, dt, port, timeBytes))
    {
      c.ttl := c.ttl - dt;
      c.nextHeartbeat := c.nextHeartbeat - dt;
      if c.nextHeartbeat <= 0.0 {
        c.nextHeartbeat := HeartbeatInterval;
        SendSctp(c, HeartbeatReply(port, c.remoteSctpPort, c.sctpVerificationTag, timeBytes));
      }
    }

    /** WuPurgeDeadClients: a ClientLeave for every expired client; the
        table itself is left alone. */
    method PurgeDeadClients()
      modifies this`events
      ensures events == old(events) + Leaves(clients)
    {
      var i := 0;
      while i < |clients|
        invariant 0 <= i <= |clients|
        invariant events == old(events) + Leaves(clients[..i])
      {
        var c := clients[i];
        assert clients[..i + 1] == clients[..i] + [c];
        if c.ttl <= 0.0 || c.state == WaitingRemoval {
          PushEvent(ClientLeave(c));
        }
        i := i + 1;
      }
      assert clients[..i] == clients;
    }

    /** WuUpdate: hand out the oldest pending event if there is one;
        otherwise advance the clients' timers and queue the leave events. */
    method Update(dt: real, timeBytes: seq<byte>) returns (r: int, evt: Option<Event>)
      requires Valid()
      modifies this`events, this`sent, clients`ttl, clients`nextHeartbeat
      ensures old(events) != [] ==>
        r == 1 && evt == Some(old(events)[0]) && events == old(events)[1..] && sent == old(sent) &&
        forall c :: c in clients ==> c.ttl == old(c.ttl) && c.nextHeartbeat == old(c.nextHeartbeat)
      ensures old(events) == [] ==>
        r == 0 && evt == None && events == Leaves(clients) &&
        sent == old(sent) + old(DueHeartbeats(clients, dt, port, timeBytes)) &&
        forall c :: c in clients ==>
          c.ttl == old(c.ttl) - dt && c.nextHeartbeat == Rearmed(old(c.nextHeartbeat), dt)
    {
      if events != [] {
        evt := Some(events[0]);
        events := events[1..];
        return 1, evt;
      }
      UpdateClients(dt, timeBytes);
      PurgeDeadClients();
      return 0, None;
    }

    /** WuSendData: refused with -1 until the data channel is open;
        otherwise one DATA chunk numbered with the client's next TSN. */
    method SendData(client: Client, data: seq<byte>, proto: u32) returns (r: int)
      modifies client`tsn, this`sent
      ensures Rank(client.state) < Rank(DataChannelOpen) ==>
        r == -1 && client.tsn == old(client.tsn) && sent == old(sent)
      ensures Rank(client.state) >= Rank(DataChannelOpen) ==>
        r == 0 && client.tsn == ToU32(old(client.tsn) + 1) &&
        sent == old(sent) + Tagged(client,
          if Sendable(client.state, client.handshakeDone)
          then [DataReply(port, client.remoteSctpPort, client.sctpVerificationTag, old(client.tsn),
                          proto, data)]
          else [])
    {
      if Rank(client.state) < Rank(DataChannelOpen) {
        return -1;
      }
      var tsn := client.tsn;
      client.tsn := ToU32(client.tsn + 1);
      SendSctp(client, DataReply(port, client.remoteSctpPort, client.sctpVerificationTag, tsn,
                                 proto, data));
      return 0;
    }

    method SendText(client: Client, text: seq<byte>) returns (r: int)
      modifies client`tsn, this`sent
      ensures Rank(client.state) < Rank(DataChannelOpen) ==>
        r == -1 && client.tsn == old(client.tsn) && sent == old(sent)
      ensures Rank(client.state) >= Rank(DataChannelOpen) ==>
        r == 0 && client.tsn == ToU32(old(client.tsn) + 1) &&
        sent == old(sent) + Tagged(client,
          if Sendable(client.state, client.handshakeDone)
          then [DataReply(port, client.remoteSctpPort, client.sctpVerificationTag, old(client.tsn),
                          DCProtoString, text)]
          else [])
    {
      r := SendData(client, text, DCProtoString);
    }

    method SendBinary(client: Client, data: seq<byte>) returns (r: int)
      modifies client`tsn, this`sent
      ensures Rank(client.state) < Rank(DataChannelOpen) ==>
        r == -1 && client.tsn == old(client.tsn) && sent == old(sent)
      ensures Rank(client.state) >= Rank(DataChannelOpen) ==>
        r == 0 && client.tsn == ToU32(old(client.tsn) + 1) &&
        sent == old(sent) + Tagged(client,
          if Sendable(client.state, client.handshakeDone)
          then [DataReply(port, client.remoteSctpPort, client.sctpVerificationTag, old(client.tsn),
                          DCProtoBinary, data)]
          else [])
    {
      r := SendData(client, data, DCProtoBinary);
    }
  }

  lemma AppendAssoc<T>(a: seq<T>, b: seq<T>, c: seq<T>)
    ensures (a + b) + c == a + (b + c)
  {
  }

  /** Handling one more chunk, when the loop has not stopped, applies one
      step to the state reached so far. */
  lemma RunNext(step: (Conn, Chunk) -> Step, hd: bool, c: Conn, chunks: seq<Chunk>, n: nat)
    requires n < |chunks|
    requires !RunBy(step, hd, c, chunks[..n]).stopped
    ensures var p := RunBy(step, hd, c, chunks[..n]);
      var s := step(p.conn, chunks[n]);
      RunBy(step, hd, c, chunks[..n + 1]) ==
        Run(s.conn, p.events + s.events, p.replies + Kept(s, hd), s.stop)
  {
    assert chunks[..n + 1][..n] == chunks[..n];
  }

  /** Once the loop has stopped, handling more chunks changes nothing. */
  lemma {:induction false} RunStopped(step: (Conn, Chunk) -> Step, hd: bool, c: Conn,
                                      chunks: seq<Chunk>, n: nat)
    requires n <= |chunks|
    requires RunBy(step, hd, c, chunks[..n]).stopped
    ensures RunBy(step, hd, c, chunks) == RunBy(step, hd, c, chunks[..n])
    decreases |chunks| - n
  {
    if n < |chunks| {
      assert chunks[..n + 1][..n] == chunks[..n];
      RunStopped(step, hd, c, chunks, n + 1);
    } else {
      assert chunks[..n] == chunks;
    }
  }

  /** Removing one slot of a table without repeats leaves a table without
      repeats holding every other client. */
  lemma SwapRemoveDistinct(s: seq<Client>, i: nat)
    requires i < |s|
    requires forall a, b :: 0 <= a < b < |s| ==> s[a] != s[b]
    ensures forall a, b :: 0 <= a < b < |s| - 1 ==> SwapRemove(s, i)[a] != SwapRemove(s, i)[b]
    ensures forall x :: x in SwapRemove(s, i) <==> x in s && x != s[i]
  {
    var r := SwapRemove(s, i);
    SwapRemoveContents(s, i);
    forall x
      ensures x in r <==> x in s && x != s[i]
    {
      assert x in r <==> x in multiset(r);
      assert x in s <==> x in multiset(s);
      if x == s[i] {
        assert multiset(s)[x] == 1 by { DistinctCount(s, i); }
      }
    }
  }

  lemma DistinctCount(s: seq<Client>, i: nat)
    requires i < |s|
    requires forall a, b :: 0 <= a < b < |s| ==> s[a] != s[b]
    ensures multiset(s)[s[i]] == 1
  {
    assert s == s[..i] + [s[i]] + s[i + 1..];
    assert s[i] !in s[..i] && s[i] !in s[i + 1..];
  }

  // ---- properties of WuHandleSctp's loop ----

  /** The loop has stopped after a run of chunks exactly when one of them
      is an INIT or an ABORT. */
  lemma {:induction false} StoppedIff(client: Client, hd: bool, c: Conn, hdr: Packet,
                                      cs: seq<Chunk>, initAckTag: u32)
    ensures RunChunks(client, hd, c, hdr, cs, initAckTag).stopped <==>
            exists j :: 0 <= j < |cs| && Stops(cs[j])
    decreases |cs|
  {
    if cs != [] {
      var init := cs[..|cs| - 1];
      StoppedIff(client, hd, c, hdr, init, initAckTag);
      if exists j :: 0 <= j < |init| && Stops(init[j]) {
        var j :| 0 <= j < |init| && Stops(init[j]);
        assert Stops(cs[j]);
      }
      if exists j :: 0 <= j < |cs| && Stops(cs[j]) {
        var j :| 0 <= j < |cs| && Stops(cs[j]);
        if j < |init| {
          assert Stops(init[j]);
        }
      }
    }
  }

  /** Chunks after the first INIT or ABORT of a packet are ignored. */
  lemma RunEndsAtFirstStop(client: Client, hd: bool, c: Conn, hdr: Packet, cs: seq<Chunk>,
                           initAckTag: u32, k: nat)
    requires k < |cs| && Stops(cs[k])
    requires forall j :: 0 <= j < k ==> !Stops(cs[j])
    ensures RunChunks(client, hd, c, hdr, cs, initAckTag) ==
            RunChunks(client, hd, c, hdr, cs[..k + 1], initAckTag)
  {
    var step := StepOf(client, hdr, initAckTag);
    StoppedIff(client, hd, c, hdr, cs[..k], initAckTag);
    assert !RunBy(step, hd, c, cs[..k]).stopped;
    RunNext(step, hd, c, cs, k);
    RunStopped(step, hd, c, cs, k + 1);
  }

  /** Over a packet, the client's state never moves down, unless an ABORT
      ends the packet in WaitingRemoval. */
  lemma {:induction false} RunRank(client: Client, hd: bool, c: Conn, hdr: Packet,
                                   cs: seq<Chunk>, initAckTag: u32)
    ensures var r := RunChunks(client, hd, c, hdr, cs, initAckTag);
      Rank(r.conn.state) >= Rank(c.state) || (r.stopped && r.conn.state == WaitingRemoval)
    decreases |cs|
  {
    if cs != [] {
      RunRank(client, hd, c, hdr, cs[..|cs| - 1], initAckTag);
    }
  }

  /** The number of ClientJoin events in a sequence of events. */
  function Joins(evs: seq<Event>): (r: nat)
    ensures r <= |evs|
    decreases |evs|
  {
    if evs == [] then 0
    else Joins(evs[..|evs| - 1]) + (if evs[|evs| - 1].ClientJoin? then 1 else 0)
  }

  lemma {:induction false} JoinsConcat(a: seq<Event>, b: seq<Event>)
    ensures Joins(a + b) == Joins(a) + Joins(b)
    decreases |b|
  {
    if b == [] {
      assert a + b == a;
    } else {
      var b' := b[..|b| - 1];
      assert (a + b)[..|a + b| - 1] == a + b';
      JoinsConcat(a, b');
    }
  }

  /** A packet raises ClientJoin at most once, and never for a client whose
      data channel is already open. */
  lemma RunJoinsOnce(client: Client, hd: bool, c: Conn, hdr: Packet, cs: seq<Chunk>,
                     initAckTag: u32)
    ensures var r := RunChunks(client, hd, c, hdr, cs, initAckTag);
      Joins(r.events) <= 1 && (c.state == DataChannelOpen ==> Joins(r.events) == 0)
  {
    RunJoinsOpen(client, hd, c, hdr, cs, initAckTag);
  }

  /** The invariant behind RunJoinsOnce: after a join, or from an open
      channel, the channel stays open until the loop stops. */
  lemma {:induction false} RunJoinsOpen(client: Client, hd: bool, c: Conn, hdr: Packet,
                                        cs: seq<Chunk>, initAckTag: u32)
    ensures var r := RunChunks(client, hd, c, hdr, cs, initAckTag);
      Joins(r.events) <= (if c.state == DataChannelOpen then 0 else 1) &&
      ((Joins(r.events) == 1 || c.state == DataChannelOpen) && !r.stopped ==>
         r.conn.state == DataChannelOpen)
    decreases |cs|
  {
    if cs != [] {
      var init := cs[..|cs| - 1];
      RunJoinsOpen(client, hd, c, hdr, init, initAckTag);
      var p := RunChunks(client, hd, c, hdr, init, initAckTag);
      if !p.stopped {
        var ch := cs[|cs| - 1];
        var st := ChunkStep(client, p.conn, hdr, ch, initAckTag);
        JoinsConcat(p.events, st.events);
        if ch.chunkType == CHUNK_DATA && IsOpen(AsData(ch.body)) {
          assert st.conn.state == DataChannelOpen;
        } else if ch.chunkType == CHUNK_DATA {
          assert Joins(st.events) == 0;
        }
      }
    }
  }

  /** Without an INIT or an ABORT, the cumulative TSN a packet leaves is at
      least the one before and at least every DATA chunk's TSN. */
  lemma {:induction false} RunCoversTsns(client: Client, hd: bool, c: Conn, hdr: Packet,
                                         cs: seq<Chunk>, initAckTag: u32)
    requires forall j :: 0 <= j < |cs| ==> !Stops(cs[j])
    ensures var r := RunChunks(client, hd, c, hdr, cs, initAckTag);
      r.conn.remoteTsn >= c.remoteTsn &&
      forall j :: 0 <= j < |cs| && cs[j].chunkType == CHUNK_DATA ==>
        r.conn.remoteTsn >= AsData(cs[j].body).tsn
    decreases |cs|
  {
    if cs != [] {
      var init := cs[..|cs| - 1];
      RunCoversTsns(client, hd, c, hdr, init, initAckTag);
      StoppedIff(client, hd, c, hdr, init, initAckTag);
      var p := RunChunks(client, hd, c, hdr, init, initAckTag);
      var r := RunChunks(client, hd, c, hdr, cs, initAckTag);
      forall j | 0 <= j < |cs| && cs[j].chunkType == CHUNK_DATA
        ensures r.conn.remoteTsn >= AsData(cs[j].body).tsn
      {
        if j < |init| {
          assert init[j] == cs[j];
        }
      }
    }
  }

  /** Every reply a packet triggers goes back to the packet's sender, with
      the swapped ports. */
  lemma {:induction false} RunAnswersSender(client: Client, hd: bool, c: Conn, hdr: Packet,
                                            cs: seq<Chunk>, initAckTag: u32)
    ensures forall r :: r in RunChunks(client, hd, c, hdr, cs, initAckTag).replies ==>
      r.packet.sourcePort == hdr.destinationPort && r.packet.destinationPort == hdr.sourcePort
    decreases |cs|
  {
    if cs != [] {
      RunAnswersSender(client, hd, c, hdr, cs[..|cs| - 1], initAckTag);
    }
  }
}
