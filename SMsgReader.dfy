/** The server's reader of client messages. Each message is one type byte
    and then its fields, read one after another from the input stream;
    the reader hands what it read to the connection's handler. Here the
    handler call a message leads to is returned as an `Event`, and a
    message that is read but handed to nobody gives `Ignored`.

    Every reader is given twice: as a function of the received bytes and
    the position (`...At`, the specification) and as a method that reads
    from an `InStream` step by step, as the code does, proved to agree
    with it. */
module SMsgReader {
  import opened Bytes
  import opened Wrappers
  import opened Geometry
  import opened RdrStream
  import ConnParams
  import VncServerSt

  // ---------------------------------------------------------------------
  // Message types, settings and what a message leads to
  // ---------------------------------------------------------------------

  /** The client message types the reader knows. Their numbers are in
      msgTypes.h, which is not part of this model: the reader is given them
      as a table from type byte to message type. */
  datatype MsgType =
    | MsgSetPixelFormat | MsgSetEncodings | MsgSetDesktopSize | MsgSetMaxVideoResolution
    | MsgFramebufferUpdateRequest | MsgEnableContinuousUpdates | MsgClientFence
    | MsgRequestStats | MsgFrameStats | MsgBinaryClipboard | MsgKeyEvent | MsgPointerEvent
    | MsgClientCutText | MsgQemuClientMessage | MsgUpgradeToUdp | MsgSubscribeUnixRelay
    | MsgUnixRelay | MsgKeepAlive

  /** What the reader consults besides the stream: the message type
      numbers, the server settings IgnoreClientSettingsKasm and
      DLP_ClipAcceptMax, and the handler's canChangeKasmSettings(). */
  datatype Config = Config(types: map<byte, MsgType>, ignoreClientSettingsKasm: bool,
                           canChangeKasmSettings: bool, clipAcceptMax: i32)

  /** The extended key event, the one QEMU submessage the reader knows; it
      is submessage 0 of the QEMU client message. */
  const QemuExtendedKeyEvent: byte := 0

  /** The size of the fence payload buffer. */
  const FencePayloadMax := 64
  /** The size of the UDP upgrade request buffer. */
  const UdpRequestMax := 4096
  /** The size of the unix relay name buffer. */
  const RelayNameMax := 64
  /** The size of the unix relay data buffer: 1 MiB. */
  const RelayDataMax := 0x10_0000
  /** The longest mime name announced: 31 bytes and a NUL. */
  const MimeNameMax := 31

  /** One screen of a SetDesktopSize layout. */
  datatype Screen = Screen(id: u32, x: u16, y: u16, w: u16, h: u16, flags: u32)

  /** One binary clipboard entry: its mime name and its data. */
  datatype Clip = Clip(mime: seq<byte>, data: seq<byte>)

  /** The handler call a message leads to, with its arguments. */
  datatype Event =
    | ClientInit(shared: bool)
    | SetPixelFormat(pf: ConnParams.PixelFormat)
    | SetEncodings(encodings: seq<i32>)
    | SetDesktopSize(width: u16, height: u16, layout: seq<Screen>)
      /** Not a handler call: the MaxVideoResolution server setting is set
          to this text. */
    | MaxVideoResolutionSet(param: string)
    | FramebufferUpdateRequest(rect: Rect, incremental: bool)
    | EnableContinuousUpdates(enable: bool, x: u16, y: u16, w: u16, h: u16)
    | Fence(flags: u32, payload: seq<byte>)
    | SendStats
    | FrameStats(all: u32, render: u32)
      /** clearBinaryClipboard, then addBinaryClipboard for each entry of
          `added`, then handleClipboardAnnounceBinary with `announced`. */
    | BinaryClipboard(added: seq<Clip>, announced: seq<seq<byte>>)
    | KeyEvent(keysym: u32, keycode: u32, down: bool)
      /** pointerEvent; its other arguments are always the point (0, 0)
          and two false flags. */
    | PointerEvent(x: u16, y: u16, mask: u16, scrollX: int, scrollY: int)
    | UdpDowngrade
      /** udpUpgrade, with the answer of the WebUDP library to this
          request. */
    | UdpUpgrade(request: seq<byte>)
    | SubscribeUnixRelay(name: seq<byte>)
    | UnixRelay(name: seq<byte>, payload: seq<byte>)
    | KeepAlive
    | Ignored

  /** The exceptions a read can end with. */
  datatype Failure =
    | EndOfStream
    | UnknownMessageType(t: byte)
    | InvalidExtendedClipboard
    | UnknownQemuSubmessage(sub: byte)

  /** A reading: what the message leads to and the position after it. */
  type Outcome = Result<(Event, nat), Failure>

  /** A method's result and the stream position it leaves, as a reading. */
  function Pair(r: Result<Event, Failure>, q: nat): Outcome
  {
    if r.Ok? then Ok((r.value, q)) else Err(r.error)
  }

  /** readS32 on a value read as U32. */
  function S32(v: u32): (r: i32)
    ensures I32Bits(r) == v
  {
    if v < 0x8000_0000 then v else v - TWO32
  }

  /** Negation of a 32-bit signed value in two's complement: the smallest
      value is its own negation. */
  function NegS32(v: i32): (r: i32)
    ensures v != -0x8000_0000 ==> r == -v
    ensures v == -0x8000_0000 ==> r < 0
  {
    if v == -0x8000_0000 then v else -v
  }

  // ---------------------------------------------------------------------
  // The messages, as functions of the received bytes
  // (p is the position just after the type byte)
  // ---------------------------------------------------------------------

  function ClientInitAt(d: seq<byte>, p: nat): (r: Outcome)
    ensures r.Ok? ==> r.value.1 == p + 1 <= |d| && r.value.0 == ClientInit(d[p] != 0)
    ensures r.Err? ==> p + 1 > |d|
  {
    if p + 1 > |d| then Err(EndOfStream) else Ok((ClientInit(d[p] != 0), p + 1))
  }

  /** A pixel format, 16 bytes: bits per pixel, depth, big-endian flag,
      true-colour flag, the three maxima (two bytes each), the three
      shifts and three bytes of padding. */
  function PixelFormatAt(d: seq<byte>, o: nat): ConnParams.PixelFormat
    requires o + 16 <= |d|
  {
    ConnParams.PixelFormat(d[o], d[o + 1], d[o + 2] != 0, d[o + 3] != 0,
      GetBE16(d, o + 4), GetBE16(d, o + 6), GetBE16(d, o + 8), d[o + 10], d[o + 11], d[o + 12])
  }

  function SetPixelFormatAt(d: seq<byte>, p: nat): (r: Outcome)
    ensures r.Ok? ==> r.value.1 == p + 19 <= |d|
    ensures r.Err? ==> r.error == EndOfStream
  {
    if p + 19 > |d| then Err(EndOfStream) else Ok((SetPixelFormat(PixelFormatAt(d, p + 3)), p + 19))
  }

  /** n encodings of four bytes each, from o on, as signed values. */
  function EncodingsAt(d: seq<byte>, o: nat, n: nat): (r: seq<i32>)
    requires o + 4 * n <= |d|
    ensures |r| == n
  {
    if n == 0 then [] else EncodingsAt(d, o, n - 1) + [S32(GetBE32(d, o + 4 * (n - 1)))]
  }

  function SetEncodingsAt(d: seq<byte>, p: nat): (r: Outcome)
    ensures r.Ok? ==> p + 3 <= r.value.1 <= |d|
    ensures r.Err? ==> r.error == EndOfStream
  {
    if p + 3 > |d| then Err(EndOfStream)
    else
      var n := GetBE16(d, p + 1);
      if p + 3 + 4 * n > |d| then Err(EndOfStream)
      else Ok((SetEncodings(EncodingsAt(d, p + 3, n)), p + 3 + 4 * n))
  }

  /** A screen, 16 bytes: id, x, y, width, height and flags. */
  function ScreenAt(d: seq<byte>, o: nat): Screen
    requires o + 16 <= |d|
  {
    Screen(GetBE32(d, o), GetBE16(d, o + 4), GetBE16(d, o + 6), GetBE16(d, o + 8),
      GetBE16(d, o + 10), GetBE32(d, o + 12))
  }

  /** n screens from o on. */
  function ScreensAt(d: seq<byte>, o: nat, n: nat): (r: seq<Screen>)
    requires o + 16 * n <= |d|
    ensures |r| == n
  {
    if n == 0 then [] else ScreensAt(d, o, n - 1) + [ScreenAt(d, o + 16 * (n - 1))]
  }

  function SetDesktopSizeAt(d: seq<byte>, p: nat): (r: Outcome)
    ensures r.Ok? ==> p + 7 <= r.value.1 <= |d|
    ensures r.Err? ==> r.error == EndOfStream
  {
    if p + 7 > |d| then Err(EndOfStream)
    else
      var n: nat := d[p + 5];
      if p + 7 + 16 * n > |d| then Err(EndOfStream)
      else Ok((SetDesktopSize(GetBE16(d, p + 1), GetBE16(d, p + 3), ScreensAt(d, p + 7, n)), p + 7 + 16 * n))
  }

  /** The text "%ux%u" the MaxVideoResolution setting is given. */
  function MaxVideoParam(w: u16, h: u16): string
  {
    VncServerSt.Dec(w) + "x" + VncServerSt.Dec(h)
  }

  function SetMaxVideoResolutionAt(d: seq<byte>, p: nat, cfg: Config): (r: Outcome)
    ensures r.Ok? ==> r.value.1 == p + 4 <= |d|
    ensures r.Ok? && (cfg.ignoreClientSettingsKasm || !cfg.canChangeKasmSettings) ==> r.value.0 == Ignored
    ensures r.Err? ==> r.error == EndOfStream
  {
    if p + 4 > |d| then Err(EndOfStream)
    else if !cfg.ignoreClientSettingsKasm && cfg.canChangeKasmSettings then
      Ok((MaxVideoResolutionSet(MaxVideoParam(GetBE16(d, p), GetBE16(d, p + 2))), p + 4))
    else Ok((Ignored, p + 4))
  }

  function FramebufferUpdateRequestAt(d: seq<byte>, p: nat): (r: Outcome)
    ensures r.Ok? ==> r.value.1 == p + 9 <= |d|
    ensures r.Err? ==> r.error == EndOfStream
  {
    if p + 9 > |d| then Err(EndOfStream)
    else
      var x: int, y: int := GetBE16(d, p + 1), GetBE16(d, p + 3);
      var w: int, h: int := GetBE16(d, p + 5), GetBE16(d, p + 7);
      Ok((FramebufferUpdateRequest(Rect(x, y, x + w, y + h), d[p] != 0), p + 9))
  }

  function EnableContinuousUpdatesAt(d: seq<byte>, p: nat): (r: Outcome)
    ensures r.Ok? ==> r.value.1 == p + 9 <= |d|
    ensures r.Err? ==> r.error == EndOfStream
  {
    if p + 9 > |d| then Err(EndOfStream)
    else Ok((EnableContinuousUpdates(d[p] != 0, GetBE16(d, p + 1), GetBE16(d, p + 3),
      GetBE16(d, p + 5), GetBE16(d, p + 7)), p + 9))
  }

  function FenceAt(d: seq<byte>, p: nat): (r: Outcome)
    ensures r.Ok? ==> p + 8 <= r.value.1 <= |d|
    ensures r.Ok? && r.value.0.Fence? ==> |r.value.0.payload| <= FencePayloadMax
    ensures r.Err? ==> r.error == EndOfStream
  {
    if p + 8 > |d| then Err(EndOfStream)
    else
      var len := d[p + 7];
      if p + 8 + len > |d| then Err(EndOfStream)
      else if len > FencePayloadMax then Ok((Ignored, p + 8 + len))
      else Ok((Fence(GetBE32(d, p + 3), d[p + 8..p + 8 + len]), p + 8 + len))
  }

  function RequestStatsAt(d: seq<byte>, p: nat): (r: Outcome)
    ensures r.Ok? ==> r.value == (SendStats, p + 3) && p + 3 <= |d|
    ensures r.Err? ==> p + 3 > |d|
  {
    if p + 3 > |d| then Err(EndOfStream) else Ok((SendStats, p + 3))
  }

  function FrameStatsAt(d: seq<byte>, p: nat): (r: Outcome)
    ensures r.Ok? ==> r.value.1 == p + 11 <= |d|
    ensures r.Err? ==> r.error == EndOfStream
  {
    if p + 11 > |d| then Err(EndOfStream)
    else Ok((FrameStats(GetBE32(d, p + 3), GetBE32(d, p + 7)), p + 11))
  }

  // ---- binary clipboard ----

  /** The entry at o: a one-byte name length, the name, a four-byte data
      length and the data; with the position after it. */
  function EntryAt(d: seq<byte>, o: nat): (r: Option<(Clip, nat)>)
    ensures r.Some? ==> o < r.value.1 <= |d|
  {
    if o + 1 > |d| then None
    else
      var ml := d[o];
      if o + 5 + ml > |d| then None
      else
        var len := GetBE32(d, o + 1 + ml);
        var q := o + 5 + ml;
        if q + len > |d| then None
        else Some((Clip(d[o + 1..o + 1 + ml], d[q..q + len]), q + len))
  }

  /** An entry too large for DLP_ClipAcceptMax, compared as unsigned. */
  predicate Refused(len: nat, max: i32)
  {
    max != 0 && len > I32Bits(max)
  }

  /** What the handler is given for an entry: the name is read as a C
      string, so it ends at its first NUL. */
  function Delivered(c: Clip): (r: Clip)
    ensures r.data == c.data
    ensures |r.mime| <= |c.mime| && r.mime == c.mime[..|r.mime|]
    ensures forall i :: 0 <= i < |r.mime| ==> r.mime[i] != 0
  {
    Clip(ConnParams.CStr(c.mime), c.data)
  }

  /** The name as announced: at most 31 bytes of it. */
  function Truncated(m: seq<byte>): (r: seq<byte>)
    ensures |r| <= MimeNameMax
    ensures |r| == if |m| <= MimeNameMax then |m| else MimeNameMax
    ensures r == m[..|r|]
  {
    if |m| <= MimeNameMax then m else m[..MimeNameMax]
  }

  /** The names announced for the entries given to the handler. */
  function Names(cs: seq<Clip>): (r: seq<seq<byte>>)
    ensures |r| == |cs|
  {
    if |cs| == 0 then [] else Names(cs[..|cs| - 1]) + [Truncated(cs[|cs| - 1].mime)]
  }

  /** The entries given to the handler: those not refused, in order. */
  function Kept(c: Clip, max: i32): seq<Clip>
  {
    if Refused(|c.data|, max) then [] else [Delivered(c)]
  }

  /** The first n entries from o on: the ones given to the handler, and
      the position after the last; None when the stream ends first. */
  function EntriesAt(d: seq<byte>, o: nat, n: nat, max: i32): (r: Option<(seq<Clip>, nat)>)
    requires o <= |d|
    ensures r.Some? ==> o <= r.value.1 <= |d|
  {
    if n == 0 then Some(([], o))
    else
      match EntriesAt(d, o, n - 1, max)
      case None => None
      case Some((cs, q)) =>
        match EntryAt(d, q)
        case None => None
        case Some((c, e)) => Some((cs + Kept(c, max), e))
  }

  function BinaryClipboardAt(d: seq<byte>, p: nat, max: i32): (r: Outcome)
    ensures r.Ok? ==> p + 1 <= r.value.1 <= |d|
    ensures r.Ok? ==> r.value.0.BinaryClipboard? && r.value.0.announced == Names(r.value.0.added)
    ensures r.Err? ==> r.error == EndOfStream
  {
    if p + 1 > |d| then Err(EndOfStream)
    else
      match EntriesAt(d, p + 1, d[p], max)
      case None => Err(EndOfStream)
      case Some((cs, e)) => Ok((BinaryClipboard(cs, Names(cs)), e))
  }

  // ---- key and pointer ----

  function KeyEventAt(d: seq<byte>, p: nat): (r: Outcome)
    ensures r.Ok? ==> r.value.1 == p + 7 <= |d|
    ensures r.Ok? ==> r.value.0.KeyEvent? && r.value.0.keycode == 0
    ensures r.Err? ==> r.error == EndOfStream
  {
    if p + 7 > |d| then Err(EndOfStream)
    else Ok((KeyEvent(GetBE32(d, p + 3), 0, d[p] != 0), p + 7))
  }

  function PointerEventAt(d: seq<byte>, p: nat): (r: Outcome)
    ensures r.Ok? ==> r.value.1 == p + 10 <= |d|
    ensures r.Ok? ==> r.value.0.PointerEvent? && -0x8000 <= r.value.0.scrollX < 0x8000 && -0x8000 <= r.value.0.scrollY < 0x8000
    ensures r.Err? ==> r.error == EndOfStream
  {
    if p + 10 > |d| then Err(EndOfStream)
    else Ok((PointerEvent(GetBE16(d, p + 2), GetBE16(d, p + 4), GetBE16(d, p),
      AsS16(GetBE16(d, p + 6)), AsS16(GetBE16(d, p + 8))), p + 10))
  }

  // ---- cut text ----

  /** The length of an extended clipboard message, from a length field
      with its high bit set: the field read as signed and negated. */
  function ExtendedLength(len: u32): i32
  {
    NegS32(S32(len))
  }

  function ClientCutTextAt(d: seq<byte>, p: nat): (r: Outcome)
    ensures r.Ok? ==> p + 7 <= r.value.1 <= |d| && r.value.0 == Ignored
  {
    if p + 7 > |d| then Err(EndOfStream)
    else
      var len := GetBE32(d, p + 3);
      if len >= 0x8000_0000 then
        var slen := ExtendedLength(len);
        if slen < 4 then Err(InvalidExtendedClipboard)
        else if p + 7 + slen > |d| then Err(EndOfStream)
        else Ok((Ignored, p + 7 + slen))
      else if p + 7 + len > |d| then Err(EndOfStream)
      else Ok((Ignored, p + 7 + len))
  }

  // ---- QEMU ----

  function QemuKeyEventAt(d: seq<byte>, q: nat): (r: Outcome)
    ensures r.Ok? ==> r.value.1 == q + 10 <= |d|
    ensures r.Ok? && r.value.0.KeyEvent? ==> r.value.0.keycode != 0
    ensures r.Ok? ==> r.value.0.KeyEvent? || r.value.0 == Ignored
    ensures r.Err? ==> r.error == EndOfStream
  {
    if q + 10 > |d| then Err(EndOfStream)
    else
      var keycode := GetBE32(d, q + 6);
      if keycode == 0 then Ok((Ignored, q + 10))
      else Ok((KeyEvent(GetBE32(d, q + 2), keycode, GetBE16(d, q) != 0), q + 10))
  }

  function QemuMessageAt(d: seq<byte>, p: nat): (r: Outcome)
    ensures r.Ok? ==> p + 11 == r.value.1 <= |d|
    ensures p < |d| && d[p] != QemuExtendedKeyEvent ==> r == Err(UnknownQemuSubmessage(d[p]))
  {
    if p + 1 > |d| then Err(EndOfStream)
    else if d[p] != QemuExtendedKeyEvent then Err(UnknownQemuSubmessage(d[p]))
    else QemuKeyEventAt(d, p + 1)
  }

  // ---- UDP upgrade and unix relays ----

  function UpgradeToUdpAt(d: seq<byte>, p: nat): (r: Outcome)
    ensures r.Ok? ==> p + 2 <= r.value.1 <= |d|
    ensures r.Ok? && r.value.0.UdpUpgrade? ==> 0 < |r.value.0.request| < UdpRequestMax
    ensures r.Err? ==> r.error == EndOfStream
  {
    if p + 2 > |d| then Err(EndOfStream)
    else
      var len := GetBE16(d, p);
      if len >= UdpRequestMax then
        if p + 2 + len > |d| then Err(EndOfStream) else Ok((Ignored, p + 2 + len))
      else if len == 0 then Ok((UdpDowngrade, p + 2))
      else if p + 2 + len > |d| then Err(EndOfStream)
      else Ok((UdpUpgrade(d[p + 2..p + 2 + len]), p + 2 + len))
  }

  function SubscribeUnixRelayAt(d: seq<byte>, p: nat): (r: Outcome)
    ensures r.Ok? ==> p + 1 <= r.value.1 <= |d|
    ensures r.Ok? && r.value.0.SubscribeUnixRelay? ==> |r.value.0.name| < RelayNameMax
    ensures r.Err? ==> r.error == EndOfStream
  {
    if p + 1 > |d| then Err(EndOfStream)
    else
      var n := d[p];
      if p + 1 + n > |d| then Err(EndOfStream)
      else if n >= RelayNameMax then Ok((Ignored, p + 1 + n))
      else Ok((SubscribeUnixRelay(ConnParams.CStr(d[p + 1..p + 1 + n])), p + 1 + n))
  }

  /** readUnixRelay as written: a name too long is skipped, and the reader
      stops there, before the data length and the data. */
  function UnixRelayAt(d: seq<byte>, p: nat): (r: Outcome)
    ensures r.Ok? ==> p + 1 <= r.value.1 <= |d|
    ensures r.Ok? && r.value.0.UnixRelay? ==> |r.value.0.name| < RelayNameMax && |r.value.0.payload| < RelayDataMax
    ensures r.Err? ==> r.error == EndOfStream
  {
    if p + 1 > |d| then Err(EndOfStream)
    else
      var n := d[p];
      if p + 1 + n > |d| then Err(EndOfStream)
      else if n >= RelayNameMax then Ok((Ignored, p + 1 + n))
      else RelayDataAt(d, p + 1 + n, ConnParams.CStr(d[p + 1..p + 1 + n]))
  }

  /** The data part of a relay message, from o on, after the name. */
  function RelayDataAt(d: seq<byte>, o: nat, name: seq<byte>): (r: Outcome)
    ensures r.Ok? ==> o + 4 <= r.value.1 <= |d|
    ensures r.Ok? && r.value.0.UnixRelay? ==> r.value.0.name == name && |r.value.0.payload| < RelayDataMax
    ensures r.Ok? ==> r.value.0.UnixRelay? || r.value.0 == Ignored
    ensures r.Err? ==> r.error == EndOfStream
  {
    if o + 4 > |d| then Err(EndOfStream)
    else
      var len := GetBE32(d, o);
      if o + 4 + len > |d| then Err(EndOfStream)
      else if len >= RelayDataMax then Ok((Ignored, o + 4 + len))
      else Ok((UnixRelay(name, d[o + 4..o + 4 + len]), o + 4 + len))
  }

  // ---- dispatch ----

  /** The body of a message of type k, from p on. */
  function BodyAt(k: MsgType, d: seq<byte>, p: nat, cfg: Config): (r: Outcome)
    requires p <= |d|
    ensures r.Ok? ==> p <= r.value.1 <= |d|
  {
    match k
    case MsgSetPixelFormat => SetPixelFormatAt(d, p)
    case MsgSetEncodings => SetEncodingsAt(d, p)
    case MsgSetDesktopSize => SetDesktopSizeAt(d, p)
    case MsgSetMaxVideoResolution => SetMaxVideoResolutionAt(d, p, cfg)
    case MsgFramebufferUpdateRequest => FramebufferUpdateRequestAt(d, p)
    case MsgEnableContinuousUpdates => EnableContinuousUpdatesAt(d, p)
    case MsgClientFence => FenceAt(d, p)
    case MsgRequestStats => RequestStatsAt(d, p)
    case MsgFrameStats => FrameStatsAt(d, p)
    case MsgBinaryClipboard => BinaryClipboardAt(d, p, cfg.clipAcceptMax)
    case MsgKeyEvent => KeyEventAt(d, p)
    case MsgPointerEvent => PointerEventAt(d, p)
    case MsgClientCutText => ClientCutTextAt(d, p)
    case MsgQemuClientMessage => QemuMessageAt(d, p)
    case MsgUpgradeToUdp => UpgradeToUdpAt(d, p)
    case MsgSubscribeUnixRelay => SubscribeUnixRelayAt(d, p)
    case MsgUnixRelay => UnixRelayAt(d, p)
    case MsgKeepAlive => Ok((KeepAlive, p))
  }

  /** readMsg: the type byte, then the body of a message of that type; a
      type byte the table does not hold is refused. Every message read
      takes at least its type byte and no byte past the end. */
  function MsgAt(d: seq<byte>, p: nat, cfg: Config): (r: Outcome)
    ensures r.Ok? ==> p < r.value.1 <= |d|
    ensures p >= |d| ==> r == Err(EndOfStream)
    ensures p < |d| && d[p] !in cfg.types ==> r == Err(UnknownMessageType(d[p]))
  {
    if p + 1 > |d| then Err(EndOfStream)
    else if d[p] !in cfg.types then Err(UnknownMessageType(d[p]))
    else BodyAt(cfg.types[d[p]], d, p + 1, cfg)
  }

  // ---------------------------------------------------------------------
  // The readers, over an input stream
  // ---------------------------------------------------------------------

  /** readClientInit */
  method ReadClientInit(s: InStream) returns (r: Result<Event, Failure>)
    requires s.Valid()
    modifies s
    ensures s.Valid() && s.data == old(s.data)
    ensures Pair(r, s.pos) == ClientInitAt(s.data, old(s.pos))
  {
    var shared := s.ReadU8();
    if shared.None? { return Err(EndOfStream); }
    return Ok(ClientInit(shared.value != 0));
  }

  /** PixelFormat::read: the 16 bytes of a pixel format. */
  method ReadPixelFormat(s: InStream) returns (r: Option<ConnParams.PixelFormat>)
    requires s.Valid()
    modifies s
    ensures s.Valid() && s.data == old(s.data)
    ensures old(s.pos) + 16 <= |s.data| ==> r == Some(PixelFormatAt(s.data, old(s.pos))) && s.pos == old(s.pos) + 16
    ensures old(s.pos) + 16 > |s.data| ==> r.None?
  {
    if s.Avail() < 16 { return None; }
    var bpp := s.ReadU8();
    var depth := s.ReadU8();
    var bigEndian := s.ReadU8();
    var trueColour := s.ReadU8();
    var redMax := s.ReadU16();
    var greenMax := s.ReadU16();
    var blueMax := s.ReadU16();
    var redShift := s.ReadU8();
    var greenShift := s.ReadU8();
    var blueShift := s.ReadU8();
    var _ := s.Skip(3);
    return Some(ConnParams.PixelFormat(bpp.value, depth.value, bigEndian.value != 0, trueColour.value != 0,
      redMax.value, greenMax.value, blueMax.value, redShift.value, greenShift.value, blueShift.value));
  }

  /** readSetPixelFormat */
  method ReadSetPixelFormat(s: InStream) returns (r: Result<Event, Failure>)
    requires s.Valid()
    modifies s
    ensures s.Valid() && s.data == old(s.data)
    ensures Pair(r, s.pos) == SetPixelFormatAt(s.data, old(s.pos))
  {
    var ok := s.Skip(3);
    if !ok { return Err(EndOfStream); }
    var pf := ReadPixelFormat(s);
    if pf.None? { return Err(EndOfStream); }
    return Ok(SetPixelFormat(pf.value));
  }

  /** readSetEncodings */
  method ReadSetEncodings(s: InStream) returns (r: Result<Event, Failure>)
    requires s.Valid()
    modifies s
    ensures s.Valid() && s.data == old(s.data)
    ensures Pair(r, s.pos) == SetEncodingsAt(s.data, old(s.pos))
  {
    var ok := s.Skip(1);
    if !ok { return Err(EndOfStream); }
    var n := s.ReadU16();
    if n.None? { return Err(EndOfStream); }
    var o := s.pos;
    var encodings: seq<i32> := [];
    var i: nat := 0;
    while i < n.value
      invariant s.Valid() && s.data == old(s.data)
      invariant 0 <= i <= n.value && s.pos == o + 4 * i
      invariant encodings == EncodingsAt(s.data, o, i)
    {
      var e := s.ReadU32();
      if e.None? { return Err(EndOfStream); }
      encodings := encodings + [S32(e.value)];
      i := i + 1;
    }
    return Ok(SetEncodings(encodings));
  }

  /** One screen of a layout. */
  method ReadScreen(s: InStream) returns (r: Option<Screen>)
    requires s.Valid()
    modifies s
    ensures s.Valid() && s.data == old(s.data)
    ensures old(s.pos) + 16 <= |s.data| ==> r == Some(ScreenAt(s.data, old(s.pos))) && s.pos == old(s.pos) + 16
    ensures old(s.pos) + 16 > |s.data| ==> r.None?
  {
    if s.Avail() < 16 { return None; }
    var id := s.ReadU32();
    var x := s.ReadU16();
    var y := s.ReadU16();
    var w := s.ReadU16();
    var h := s.ReadU16();
    var flags := s.ReadU32();
    return Some(Screen(id.value, x.value, y.value, w.value, h.value, flags.value));
  }

  /** The screens of a layout, n of them. */
  method ReadLayout(s: InStream, n: nat) returns (r: Option<seq<Screen>>)
    requires s.Valid()
    modifies s
    ensures s.Valid() && s.data == old(s.data)
    ensures old(s.pos) + 16 * n <= |s.data| ==> r == Some(ScreensAt(s.data, old(s.pos), n)) && s.pos == old(s.pos) + 16 * n
    ensures old(s.pos) + 16 * n > |s.data| ==> r.None?
  {
    var o := s.pos;
    var layout: seq<Screen> := [];
    var i: nat := 0;
    while i < n
      invariant s.Valid() && s.data == old(s.data)
      invariant 0 <= i <= n && s.pos == o + 16 * i
      invariant layout == ScreensAt(s.data, o, i)
    {
      var screen := ReadScreen(s);
      if screen.None? { return None; }
      layout := layout + [screen.value];
      i := i + 1;
    }
    return Some(layout);
  }

  /** readSetDesktopSize */
  method ReadSetDesktopSize(s: InStream) returns (r: Result<Event, Failure>)
    requires s.Valid()
    modifies s
    ensures s.Valid() && s.data == old(s.data)
    ensures Pair(r, s.pos) == SetDesktopSizeAt(s.data, old(s.pos))
  {
    var ok := s.Skip(1);
    if !ok { return Err(EndOfStream); }
    var width := s.ReadU16();
    if width.None? { return Err(EndOfStream); }
    var height := s.ReadU16();
    if height.None? { return Err(EndOfStream); }
    var screens := s.ReadU8();
    if screens.None? { return Err(EndOfStream); }
    ok := s.Skip(1);
    if !ok { return Err(EndOfStream); }
    var layout := ReadLayout(s, screens.value);
    if layout.None? { return Err(EndOfStream); }
    return Ok(SetDesktopSize(width.value, height.value, layout.value));
  }

  /** readSetMaxVideoResolution */
  method ReadSetMaxVideoResolution(s: InStream, cfg: Config) returns (r: Result<Event, Failure>)
    requires s.Valid()
    modifies s
    ensures s.Valid() && s.data == old(s.data)
    ensures Pair(r, s.pos) == SetMaxVideoResolutionAt(s.data, old(s.pos), cfg)
  {
    var width := s.ReadU16();
    if width.None? { return Err(EndOfStream); }
    var height := s.ReadU16();
    if height.None? { return Err(EndOfStream); }
    if !cfg.ignoreClientSettingsKasm && cfg.canChangeKasmSettings {
      return Ok(MaxVideoResolutionSet(MaxVideoParam(width.value, height.value)));
    }
    return Ok(Ignored);
  }

  /** readFramebufferUpdateRequest */
  method ReadFramebufferUpdateRequest(s: InStream) returns (r: Result<Event, Failure>)
    requires s.Valid()
    modifies s
    ensures s.Valid() && s.data == old(s.data)
    ensures Pair(r, s.pos) == FramebufferUpdateRequestAt(s.data, old(s.pos))
  {
    var inc := s.ReadU8();
    if inc.None? { return Err(EndOfStream); }
    var x := s.ReadU16();
    if x.None? { return Err(EndOfStream); }
    var y := s.ReadU16();
    if y.None? { return Err(EndOfStream); }
    var w := s.ReadU16();
    if w.None? { return Err(EndOfStream); }
    var h := s.ReadU16();
    if h.None? { return Err(EndOfStream); }
    return Ok(FramebufferUpdateRequest(Rect(x.value, y.value, x.value as int + w.value, y.value as int + h.value), inc.value != 0));
  }

  /** readEnableContinuousUpdates */
  method ReadEnableContinuousUpdates(s: InStream) returns (r: Result<Event, Failure>)
    requires s.Valid()
    modifies s
    ensures s.Valid() && s.data == old(s.data)
    ensures Pair(r, s.pos) == EnableContinuousUpdatesAt(s.data, old(s.pos))
  {
    var enable := s.ReadU8();
    if enable.None? { return Err(EndOfStream); }
    var x := s.ReadU16();
    if x.None? { return Err(EndOfStream); }
    var y := s.ReadU16();
    if y.None? { return Err(EndOfStream); }
    var w := s.ReadU16();
    if w.None? { return Err(EndOfStream); }
    var h := s.ReadU16();
    if h.None? { return Err(EndOfStream); }
    return Ok(EnableContinuousUpdates(enable.value != 0, x.value, y.value, w.value, h.value));
  }

  /** readFence: a payload larger than the 64-byte buffer is skipped and
      no fence is delivered. */
  method ReadFence(s: InStream) returns (r: Result<Event, Failure>)
    requires s.Valid()
    modifies s
    ensures s.Valid() && s.data == old(s.data)
    ensures Pair(r, s.pos) == FenceAt(s.data, old(s.pos))
  {
    var ok := s.Skip(3);
    if !ok { return Err(EndOfStream); }
    var flags := s.ReadU32();
    if flags.None? { return Err(EndOfStream); }
    var len := s.ReadU8();
    if len.None? { return Err(EndOfStream); }
    if len.value > FencePayloadMax {
      ok := s.Skip(len.value);
      if !ok { return Err(EndOfStream); }
      return Ok(Ignored);
    }
    var payload := s.ReadBytes(len.value);
    if payload.None? { return Err(EndOfStream); }
    return Ok(Fence(flags.value, payload.value));
  }

  /** readRequestStats */
  method ReadRequestStats(s: InStream) returns (r: Result<Event, Failure>)
    requires s.Valid()
    modifies s
    ensures s.Valid() && s.data == old(s.data)
    ensures Pair(r, s.pos) == RequestStatsAt(s.data, old(s.pos))
  {
    var ok := s.Skip(3);
    if !ok { return Err(EndOfStream); }
    return Ok(SendStats);
  }

  /** readFrameStats */
  method ReadFrameStats(s: InStream) returns (r: Result<Event, Failure>)
    requires s.Valid()
    modifies s
    ensures s.Valid() && s.data == old(s.data)
    ensures Pair(r, s.pos) == FrameStatsAt(s.data, old(s.pos))
  {
    var ok := s.Skip(3);
    if !ok { return Err(EndOfStream); }
    var all := s.ReadU32();
    if all.None? { return Err(EndOfStream); }
    var render := s.ReadU32();
    if render.None? { return Err(EndOfStream); }
    return Ok(FrameStats(all.value, render.value));
  }

  /** One binary clipboard entry. */
  method ReadEntry(s: InStream) returns (r: Option<Clip>)
    requires s.Valid()
    modifies s
    ensures s.Valid() && s.data == old(s.data)
    ensures EntryAt(s.data, old(s.pos)).Some? ==> r == Some(EntryAt(s.data, old(s.pos)).value.0) && s.pos == EntryAt(s.data, old(s.pos)).value.1
    ensures EntryAt(s.data, old(s.pos)).None? ==> r.None?
  {
    var mimelen := s.ReadU8();
    if mimelen.None? { return None; }
    var mime := s.ReadBytes(mimelen.value);
    if mime.None? { return None; }
    var len := s.ReadU32();
    if len.None? { return None; }
    var data := s.ReadBytes(len.value);
    if data.None? { return None; }
    return Some(Clip(mime.value, data.value));
  }

  lemma NamesAppend(cs: seq<Clip>, c: Clip)
    ensures Names(cs + [c]) == Names(cs) + [Truncated(c.mime)]
  {
    assert (cs + [c])[..|cs|] == cs;
  }

  /** One turn of the entry loop: the entry read is kept or dropped. */
  lemma EntryLoopStep(d: seq<byte>, o: nat, i: nat, max: i32, added: seq<Clip>, q: nat, c: Clip, e: nat)
    requires o <= |d| && EntriesAt(d, o, i, max) == Some((added, q)) && EntryAt(d, q) == Some((c, e))
    ensures Refused(|c.data|, max) ==> EntriesAt(d, o, i + 1, max) == Some((added, e))
    ensures !Refused(|c.data|, max) ==> EntriesAt(d, o, i + 1, max) == Some((added + [Delivered(c)], e))
    ensures Names(added + [Delivered(c)]) == Names(added) + [Truncated(Delivered(c).mime)]
  {
    NamesAppend(added, Delivered(c));
    assert added + [] == added;
  }

  /** Once the stream ends, more entries do not help. */
  lemma {:induction false} EntriesEnd(d: seq<byte>, o: nat, i: nat, n: nat, max: i32)
    requires o <= |d| && i <= n && EntriesAt(d, o, i, max).None?
    ensures EntriesAt(d, o, n, max).None?
    decreases n - i
  {
    if i < n {
      EntriesEnd(d, o, i + 1, n, max);
    }
  }

  /** One turn of the entry loop: the entry is read, and given to the
      handler, its name kept for the announcement, unless it is refused. */
  method ReadOneEntry(s: InStream, max: i32, ghost o: nat, ghost i: nat, added: seq<Clip>, announced: seq<seq<byte>>)
    returns (ok: bool, added': seq<Clip>, announced': seq<seq<byte>>)
    requires s.Valid() && o <= |s.data| && EntriesAt(s.data, o, i, max) == Some((added, s.pos)) && announced == Names(added)
    modifies s
    ensures s.Valid() && s.data == old(s.data)
    ensures ok ==> EntriesAt(s.data, o, i + 1, max) == Some((added', s.pos)) && announced' == Names(added')
    ensures !ok ==> EntriesAt(s.data, o, i + 1, max) == None
  {
    ghost var before := s.pos;
    var c := ReadEntry(s);
    if c.None? {
      return false, added, announced;
    }
    EntryLoopStep(s.data, o, i, max, added, before, c.value, s.pos);
    if Refused(|c.value.data|, max) {
      return true, added, announced;
    }
    var m := Delivered(c.value);
    return true, added + [m], announced + [Truncated(m.mime)];
  }

  /** The entry loop of readBinaryClipboard: n entries are read; the ones
      not refused are given to the handler, and their names kept for the
      announcement. */
  method ReadEntries(s: InStream, max: i32, n: nat) returns (ok: bool, added: seq<Clip>, announced: seq<seq<byte>>)
    requires s.Valid()
    modifies s
    ensures s.Valid() && s.data == old(s.data)
    ensures ok ==> EntriesAt(s.data, old(s.pos), n, max) == Some((added, s.pos)) && announced == Names(added)
    ensures !ok ==> EntriesAt(s.data, old(s.pos), n, max) == None
  {
    ghost var o := s.pos;
    added, announced := [], [];
    var i: nat := 0;
    while i < n
      invariant s.Valid() && s.data == old(s.data) && o <= |s.data|
      invariant i <= n
      invariant EntriesAt(s.data, o, i, max) == Some((added, s.pos)) && announced == Names(added)
    {
      ok, added, announced := ReadOneEntry(s, max, o, i, added, announced);
      if !ok {
        EntriesEnd(s.data, o, i + 1, n, max);
        return;
      }
      i := i + 1;
    }
    ok := true;
  }

  /** readBinaryClipboard: every entry is read; the ones larger than
      DLP_ClipAcceptMax are dropped, the others given to the handler with
      their names kept, truncated, for the announcement. */
  method ReadBinaryClipboard(s: InStream, max: i32) returns (r: Result<Event, Failure>)
    requires s.Valid()
    modifies s
    ensures s.Valid() && s.data == old(s.data)
    ensures Pair(r, s.pos) == BinaryClipboardAt(s.data, old(s.pos), max)
  {
    var num := s.ReadU8();
    if num.None? { return Err(EndOfStream); }
    var ok, added, announced := ReadEntries(s, max, num.value);
    if !ok { return Err(EndOfStream); }
    return Ok(BinaryClipboard(added, announced));
  }

  /** readKeyEvent: the key code is always 0. */
  method ReadKeyEvent(s: InStream) returns (r: Result<Event, Failure>)
    requires s.Valid()
    modifies s
    ensures s.Valid() && s.data == old(s.data)
    ensures Pair(r, s.pos) == KeyEventAt(s.data, old(s.pos))
  {
    var down := s.ReadU8();
    if down.None? { return Err(EndOfStream); }
    var ok := s.Skip(2);
    if !ok { return Err(EndOfStream); }
    var key := s.ReadU32();
    if key.None? { return Err(EndOfStream); }
    return Ok(KeyEvent(key.value, 0, down.value != 0));
  }

  /** readPointerEvent */
  method ReadPointerEvent(s: InStream) returns (r: Result<Event, Failure>)
    requires s.Valid()
    modifies s
    ensures s.Valid() && s.data == old(s.data)
    ensures Pair(r, s.pos) == PointerEventAt(s.data, old(s.pos))
  {
    var mask := s.ReadU16();
    if mask.None? { return Err(EndOfStream); }
    var x := s.ReadU16();
    if x.None? { return Err(EndOfStream); }
    var y := s.ReadU16();
    if y.None? { return Err(EndOfStream); }
    var scrollX := s.ReadS16();
    if scrollX.None? { return Err(EndOfStream); }
    var scrollY := s.ReadS16();
    if scrollY.None? { return Err(EndOfStream); }
    return Ok(PointerEvent(x.value, y.value, mask.value, scrollX.value, scrollY.value));
  }

  /** readClientCutText, with readExtendedClipboard: the text is skipped
      either way; an extended message shorter than 4 bytes is refused. */
  method ReadClientCutText(s: InStream) returns (r: Result<Event, Failure>)
    requires s.Valid()
    modifies s
    ensures s.Valid() && s.data == old(s.data)
    ensures Pair(r, s.pos) == ClientCutTextAt(s.data, old(s.pos))
  {
    var ok := s.Skip(3);
    if !ok { return Err(EndOfStream); }
    var len := s.ReadU32();
    if len.None? { return Err(EndOfStream); }
    if len.value >= 0x8000_0000 {
      var slen := NegS32(S32(len.value));
      if slen < 4 { return Err(InvalidExtendedClipboard); }
      ok := s.Skip(slen);
      if !ok { return Err(EndOfStream); }
      return Ok(Ignored);
    }
    ok := s.Skip(len.value);
    if !ok { return Err(EndOfStream); }
    return Ok(Ignored);
  }

  /** readQEMUKeyEvent: a key event without a key code is dropped. */
  method ReadQemuKeyEvent(s: InStream) returns (r: Result<Event, Failure>)
    requires s.Valid()
    modifies s
    ensures s.Valid() && s.data == old(s.data)
    ensures Pair(r, s.pos) == QemuKeyEventAt(s.data, old(s.pos))
  {
    var down := s.ReadU16();
    if down.None? { return Err(EndOfStream); }
    var keysym := s.ReadU32();
    if keysym.None? { return Err(EndOfStream); }
    var keycode := s.ReadU32();
    if keycode.None? { return Err(EndOfStream); }
    if keycode.value == 0 {
      return Ok(Ignored);
    }
    return Ok(KeyEvent(keysym.value, keycode.value, down.value != 0));
  }

  /** readQEMUMessage */
  method ReadQemuMessage(s: InStream) returns (r: Result<Event, Failure>)
    requires s.Valid()
    modifies s
    ensures s.Valid() && s.data == old(s.data)
    ensures Pair(r, s.pos) == QemuMessageAt(s.data, old(s.pos))
  {
    var subType := s.ReadU8();
    if subType.None? { return Err(EndOfStream); }
    if subType.value != QemuExtendedKeyEvent {
      return Err(UnknownQemuSubmessage(subType.value));
    }
    r := ReadQemuKeyEvent(s);
  }

  /** readUpgradeToUdp: an empty request is a downgrade; one too large for
      the 4096-byte buffer is skipped. */
  method ReadUpgradeToUdp(s: InStream) returns (r: Result<Event, Failure>)
    requires s.Valid()
    modifies s
    ensures s.Valid() && s.data == old(s.data)
    ensures Pair(r, s.pos) == UpgradeToUdpAt(s.data, old(s.pos))
  {
    var len := s.ReadU16();
    if len.None? { return Err(EndOfStream); }
    if len.value >= UdpRequestMax {
      var ok := s.Skip(len.value);
      if !ok { return Err(EndOfStream); }
      return Ok(Ignored);
    }
    if len.value == 0 {
      return Ok(UdpDowngrade);
    }
    var buf := s.ReadBytes(len.value);
    if buf.None? { return Err(EndOfStream); }
    return Ok(UdpUpgrade(buf.value));
  }

  /** readSubscribeUnixRelay: a name too long for the 64-byte buffer is
      skipped. */
  method ReadSubscribeUnixRelay(s: InStream) returns (r: Result<Event, Failure>)
    requires s.Valid()
    modifies s
    ensures s.Valid() && s.data == old(s.data)
    ensures Pair(r, s.pos) == SubscribeUnixRelayAt(s.data, old(s.pos))
  {
    var namelen := s.ReadU8();
    if namelen.None? { return Err(EndOfStream); }
    if namelen.value >= RelayNameMax {
      var ok := s.Skip(namelen.value);
      if !ok { return Err(EndOfStream); }
      return Ok(Ignored);
    }
    var name := s.ReadBytes(namelen.value);
    if name.None? { return Err(EndOfStream); }
    return Ok(SubscribeUnixRelay(ConnParams.CStr(name.value)));
  }

  /** readUnixRelay, as written: a name too long for the 64-byte buffer is
      skipped, and so is data too large for the 1 MiB buffer. */
  method ReadUnixRelay(s: InStream) returns (r: Result<Event, Failure>)
    requires s.Valid()
    modifies s
    ensures s.Valid() && s.data == old(s.data)
    ensures Pair(r, s.pos) == UnixRelayAt(s.data, old(s.pos))
  {
    var namelen := s.ReadU8();
    if namelen.None? { return Err(EndOfStream); }
    if namelen.value >= RelayNameMax {
      var ok := s.Skip(namelen.value);
      if !ok { return Err(EndOfStream); }
      return Ok(Ignored);
    }
    var name := s.ReadBytes(namelen.value);
    if name.None? { return Err(EndOfStream); }
    r := ReadRelayData(s, ConnParams.CStr(name.value));
  }

  /** The data part of readUnixRelay, after the name. */
  method ReadRelayData(s: InStream, name: seq<byte>) returns (r: Result<Event, Failure>)
    requires s.Valid()
    modifies s
    ensures s.Valid() && s.data == old(s.data)
    ensures Pair(r, s.pos) == RelayDataAt(s.data, old(s.pos), name)
  {
    var len := s.ReadU32();
    if len.None? { return Err(EndOfStream); }
    if len.value >= RelayDataMax {
      var ok := s.Skip(len.value);
      if !ok { return Err(EndOfStream); }
      return Ok(Ignored);
    }
    var buf := s.ReadBytes(len.value);
    if buf.None? { return Err(EndOfStream); }
    return Ok(UnixRelay(name, buf.value));
  }

  /** readMsg: one message, by its type byte. */
  method ReadMsg(s: InStream, cfg: Config) returns (r: Result<Event, Failure>)
    requires s.Valid()
    modifies s
    ensures s.Valid() && s.data == old(s.data)
    ensures Pair(r, s.pos) == MsgAt(s.data, old(s.pos), cfg)
  {
    var msgType := s.ReadU8();
    if msgType.None? { return Err(EndOfStream); }
    if msgType.value !in cfg.types {
      return Err(UnknownMessageType(msgType.value));
    }
    r := ReadBody(s, cfg.types[msgType.value], cfg);
  }

  /** The switch of readMsg. */
  method ReadBody(s: InStream, k: MsgType, cfg: Config) returns (r: Result<Event, Failure>)
    requires s.Valid()
    modifies s
    ensures s.Valid() && s.data == old(s.data)
    ensures Pair(r, s.pos) == BodyAt(k, s.data, old(s.pos), cfg)
  {
    match k
    case MsgSetPixelFormat => r := ReadSetPixelFormat(s);
    case MsgSetEncodings => r := ReadSetEncodings(s);
    case MsgSetDesktopSize => r := ReadSetDesktopSize(s);
    case MsgSetMaxVideoResolution => r := ReadSetMaxVideoResolution(s, cfg);
    case MsgFramebufferUpdateRequest => r := ReadFramebufferUpdateRequest(s);
    case MsgEnableContinuousUpdates => r := ReadEnableContinuousUpdates(s);
    case MsgClientFence => r := ReadFence(s);
    case MsgRequestStats => r := ReadRequestStats(s);
    case MsgFrameStats => r := ReadFrameStats(s);
    case MsgBinaryClipboard => r := ReadBinaryClipboard(s, cfg.clipAcceptMax);
    case MsgKeyEvent => r := ReadKeyEvent(s);
    case MsgPointerEvent => r := ReadPointerEvent(s);
    case MsgClientCutText => r := ReadClientCutText(s);
    case MsgQemuClientMessage => r := ReadQemuMessage(s);
    case MsgUpgradeToUdp => r := ReadUpgradeToUdp(s);
    case MsgSubscribeUnixRelay => r := ReadSubscribeUnixRelay(s);
    case MsgUnixRelay => r := ReadUnixRelay(s);
    case MsgKeepAlive => r := Ok(KeepAlive);
  }

  // ---------------------------------------------------------------------
  // The client's side: messages as a client writes them, and what the
  // reader makes of them
  // ---------------------------------------------------------------------

  function Flag(b: bool): byte
  {
    if b then 1 else 0
  }

  /** The bytes of d from o on are a, then b. */
  lemma SplitAt(d: seq<byte>, o: nat, a: seq<byte>, b: seq<byte>)
    requires o + |a| + |b| <= |d| && d[o..o + |a| + |b|] == a + b
    ensures d[o..o + |a|] == a && d[o + |a|..o + |a| + |b|] == b
  {
    assert d[o..o + |a|] == d[o..o + |a| + |b|][..|a|];
    assert d[o + |a|..o + |a| + |b|] == d[o..o + |a| + |b|][|a|..];
  }

  /** A message is its type byte and its body. */
  lemma MsgFrame(d: seq<byte>, p: nat, cfg: Config, code: byte, k: MsgType, body: seq<byte>)
    requires p + 1 + |body| <= |d| && d[p..p + 1 + |body|] == [code] + body
    requires code in cfg.types && cfg.types[code] == k
    ensures MsgAt(d, p, cfg) == BodyAt(k, d, p + 1, cfg)
    ensures d[p + 1..p + 1 + |body|] == body
  {
    SplitAt(d, p, [code], body);
    assert d[p] == d[p..p + 1][0];
  }

  lemma S32OfBits(x: i32)
    ensures S32(I32Bits(x)) == x
  {
  }

  lemma AsS16OfBits(v: int)
    requires -0x8000 <= v < 0x8000
    ensures AsS16(ToU16(v)) == v
  {
    if v < 0 {
      assert ToU16(v) == v + TWO16;
    }
  }

  // ---- SetEncodings ----

  /** Encodings, four bytes each, in two's complement. */
  function EncodingBytes(es: seq<i32>): (r: seq<byte>)
    ensures |r| == 4 * |es|
  {
    if |es| == 0 then [] else EncodingBytes(es[..|es| - 1]) + BE32(I32Bits(es[|es| - 1]))
  }

  /** The body of SetEncodings: a padding byte, the count, the encodings. */
  function SetEncodingsBody(es: seq<i32>): (r: seq<byte>)
    requires |es| < TWO16
    ensures |r| == 3 + 4 * |es|
  {
    [0] + BE16(|es|) + EncodingBytes(es)
  }

  lemma {:induction false} EncodingsRead(d: seq<byte>, o: nat, es: seq<i32>)
    requires o + 4 * |es| <= |d| && d[o..o + 4 * |es|] == EncodingBytes(es)
    ensures EncodingsAt(d, o, |es|) == es
  {
    var n := |es|;
    if n > 0 {
      var pre := es[..n - 1];
      SplitAt(d, o, EncodingBytes(pre), BE32(I32Bits(es[n - 1])));
      EncodingsRead(d, o, pre);
      GetBE32At(d, o + 4 * (n - 1), I32Bits(es[n - 1]));
      S32OfBits(es[n - 1]);
      assert pre + [es[n - 1]] == es;
    }
  }

  /** SetEncodings reads back the encodings written, whatever their
      number, and the whole body. */
  lemma SetEncodingsReadBack(d: seq<byte>, q: nat, es: seq<i32>)
    requires |es| < TWO16
    requires q + 3 + 4 * |es| <= |d| && d[q..q + 3 + 4 * |es|] == SetEncodingsBody(es)
    ensures SetEncodingsAt(d, q) == Ok((SetEncodings(es), q + 3 + 4 * |es|))
  {
    SplitAt(d, q, [0] + BE16(|es|), EncodingBytes(es));
    SplitAt(d, q, [0], BE16(|es|));
    GetBE16At(d, q + 1, |es|);
    EncodingsRead(d, q + 3, es);
  }

  // ---- SetPixelFormat ----

  /** A pixel format whose fields fit their places on the wire. */
  predicate WirePixelFormat(pf: ConnParams.PixelFormat)
  {
    0 <= pf.bpp < 0x100 && 0 <= pf.depth < 0x100 &&
    0 <= pf.redMax < TWO16 && 0 <= pf.greenMax < TWO16 && 0 <= pf.blueMax < TWO16 &&
    0 <= pf.redShift < 0x100 && 0 <= pf.greenShift < 0x100 && 0 <= pf.blueShift < 0x100
  }

  /** The 16 bytes of a pixel format. */
  function PixelFormatBytes(pf: ConnParams.PixelFormat): (r: seq<byte>)
    requires WirePixelFormat(pf)
    ensures |r| == 16
  {
    [pf.bpp, pf.depth, Flag(pf.bigEndian), Flag(pf.trueColour)] +
    BE16(pf.redMax) + BE16(pf.greenMax) + BE16(pf.blueMax) +
    [pf.redShift, pf.greenShift, pf.blueShift, 0, 0, 0]
  }

  lemma PixelFormatReadBack(d: seq<byte>, o: nat, pf: ConnParams.PixelFormat)
    requires WirePixelFormat(pf)
    requires o + 16 <= |d| && d[o..o + 16] == PixelFormatBytes(pf)
    ensures PixelFormatAt(d, o) == pf
  {
    var a := [pf.bpp, pf.depth, Flag(pf.bigEndian), Flag(pf.trueColour)];
    var t := [pf.redShift, pf.greenShift, pf.blueShift, 0, 0, 0];
    SplitAt(d, o, a + BE16(pf.redMax) + BE16(pf.greenMax) + BE16(pf.blueMax), t);
    SplitAt(d, o, a + BE16(pf.redMax) + BE16(pf.greenMax), BE16(pf.blueMax));
    SplitAt(d, o, a + BE16(pf.redMax), BE16(pf.greenMax));
    SplitAt(d, o, a, BE16(pf.redMax));
    assert d[o] == a[0] && d[o + 1] == a[1] && d[o + 2] == a[2] && d[o + 3] == a[3] by {
      assert d[o..o + 4] == a;
    }
    assert d[o + 10] == t[0] && d[o + 11] == t[1] && d[o + 12] == t[2] by {
      assert d[o + 10..o + 16] == t;
    }
    GetBE16At(d, o + 4, pf.redMax);
    GetBE16At(d, o + 6, pf.greenMax);
    GetBE16At(d, o + 8, pf.blueMax);
  }

  /** SetPixelFormat reads back the pixel format written after its three
      bytes of padding. */
  lemma SetPixelFormatReadBack(d: seq<byte>, q: nat, pf: ConnParams.PixelFormat)
    requires WirePixelFormat(pf)
    requires q + 19 <= |d| && d[q..q + 19] == [0, 0, 0] + PixelFormatBytes(pf)
    ensures SetPixelFormatAt(d, q) == Ok((SetPixelFormat(pf), q + 19))
  {
    SplitAt(d, q, [0, 0, 0], PixelFormatBytes(pf));
    PixelFormatReadBack(d, q + 3, pf);
  }

  // ---- SetDesktopSize ----

  /** A screen, 16 bytes: id, x, y, width, height, flags. */
  function ScreenBytes(s: Screen): (r: seq<byte>)
    ensures |r| == 16
  {
    BE32(s.id) + BE16(s.x) + BE16(s.y) + BE16(s.w) + BE16(s.h) + BE32(s.flags)
  }

  lemma ScreenReadBack(d: seq<byte>, o: nat, s: Screen)
    requires o + 16 <= |d| && d[o..o + 16] == ScreenBytes(s)
    ensures ScreenAt(d, o) == s
  {
    SplitAt(d, o, BE32(s.id) + BE16(s.x) + BE16(s.y) + BE16(s.w) + BE16(s.h), BE32(s.flags));
    SplitAt(d, o, BE32(s.id) + BE16(s.x) + BE16(s.y) + BE16(s.w), BE16(s.h));
    SplitAt(d, o, BE32(s.id) + BE16(s.x) + BE16(s.y), BE16(s.w));
    SplitAt(d, o, BE32(s.id) + BE16(s.x), BE16(s.y));
    SplitAt(d, o, BE32(s.id), BE16(s.x));
    GetBE32At(d, o, s.id);
    GetBE16At(d, o + 4, s.x);
    GetBE16At(d, o + 6, s.y);
    GetBE16At(d, o + 8, s.w);
    GetBE16At(d, o + 10, s.h);
    GetBE32At(d, o + 12, s.flags);
  }

  /** Screens read one after the other, the i-th at o + 16 * i. */
  lemma {:induction false} ScreensReadInTurn(d: seq<byte>, o: nat, ss: seq<Screen>)
    requires o + 16 * |ss| <= |d|
    requires forall i :: 0 <= i < |ss| ==> ScreenAt(d, o + 16 * i) == ss[i]
    ensures ScreensAt(d, o, |ss|) == ss
  {
    var n := |ss|;
    if n > 0 {
      var pre := ss[..n - 1];
      assert forall i :: 0 <= i < |pre| ==> ScreenAt(d, o + 16 * i) == pre[i];
      ScreensReadInTurn(d, o, pre);
      assert pre + [ss[n - 1]] == ss;
    }
  }

  /** The screens ss written one after the other from o on, 16 bytes
      each. */
  predicate ScreensLaidOut(d: seq<byte>, o: nat, ss: seq<Screen>)
  {
    o + 16 * |ss| <= |d| &&
    forall i :: 0 <= i < |ss| ==> d[o + 16 * i..o + 16 * i + 16] == ScreenBytes(ss[i])
  }

  lemma ScreensReadBack(d: seq<byte>, o: nat, ss: seq<Screen>)
    requires ScreensLaidOut(d, o, ss)
    ensures ScreensAt(d, o, |ss|) == ss
  {
    forall i | 0 <= i < |ss|
      ensures ScreenAt(d, o + 16 * i) == ss[i]
    {
      ScreenReadBack(d, o + 16 * i, ss[i]);
    }
    ScreensReadInTurn(d, o, ss);
  }

  /** SetDesktopSize reads back the size and the whole layout written
      after the header: padding, the size, the number of screens and
      padding. */
  lemma SetDesktopSizeReadBack(d: seq<byte>, q: nat, w: u16, h: u16, ss: seq<Screen>)
    requires |ss| < 0x100
    requires q + 7 <= |d| && d[q..q + 7] == [0] + BE16(w) + BE16(h) + [|ss|, 0]
    requires ScreensLaidOut(d, q + 7, ss)
    ensures SetDesktopSizeAt(d, q) == Ok((SetDesktopSize(w, h, ss), q + 7 + 16 * |ss|))
  {
    SplitAt(d, q, [0] + BE16(w) + BE16(h), [|ss|, 0]);
    SplitAt(d, q, [0] + BE16(w), BE16(h));
    SplitAt(d, q, [0], BE16(w));
    assert d[q + 5] == d[q + 5..q + 7][0];
    GetBE16At(d, q + 1, w);
    GetBE16At(d, q + 3, h);
    ScreensReadBack(d, q + 7, ss);
  }

  // ---- SetMaxVideoResolution, EnableContinuousUpdates, FrameStats ----

  /** SetMaxVideoResolution sets the MaxVideoResolution setting to the
      text "<width>x<height>" when the client may change Kasm settings and
      they are not ignored; otherwise it is read and dropped. */
  lemma SetMaxVideoResolutionReadBack(d: seq<byte>, q: nat, cfg: Config, w: u16, h: u16)
    requires q + 4 <= |d| && d[q..q + 4] == BE16(w) + BE16(h)
    ensures !cfg.ignoreClientSettingsKasm && cfg.canChangeKasmSettings ==>
      SetMaxVideoResolutionAt(d, q, cfg) == Ok((MaxVideoResolutionSet(MaxVideoParam(w, h)), q + 4))
    ensures cfg.ignoreClientSettingsKasm || !cfg.canChangeKasmSettings ==>
      SetMaxVideoResolutionAt(d, q, cfg) == Ok((Ignored, q + 4))
  {
    SplitAt(d, q, BE16(w), BE16(h));
    GetBE16At(d, q, w);
    GetBE16At(d, q + 2, h);
  }

  /** The setting text is the two decimal numbers around an "x". */
  lemma MaxVideoParamLayout(w: u16, h: u16)
    ensures var t := MaxVideoParam(w, h);
      var k := |VncServerSt.Dec(w)|;
      k < |t| && t[k] == 'x' && VncServerSt.AllDigits(t[..k]) && VncServerSt.AllDigits(t[k + 1..])
  {
    VncServerSt.DecDigits(w);
    VncServerSt.DecDigits(h);
    var t := MaxVideoParam(w, h);
    var k := |VncServerSt.Dec(w)|;
    assert t[..k] == VncServerSt.Dec(w);
    assert t[k + 1..] == VncServerSt.Dec(h);
  }

  function EnableContinuousUpdatesBody(enable: bool, x: u16, y: u16, w: u16, h: u16): (r: seq<byte>)
    ensures |r| == 9
  {
    [Flag(enable)] + BE16(x) + BE16(y) + BE16(w) + BE16(h)
  }

  /** EnableContinuousUpdates reads back its flag and area. */
  lemma EnableContinuousUpdatesReadBack(d: seq<byte>, q: nat, enable: bool, x: u16, y: u16, w: u16, h: u16)
    requires q + 9 <= |d| && d[q..q + 9] == EnableContinuousUpdatesBody(enable, x, y, w, h)
    ensures EnableContinuousUpdatesAt(d, q) == Ok((EnableContinuousUpdates(enable, x, y, w, h), q + 9))
  {
    SplitAt(d, q, [Flag(enable)] + BE16(x) + BE16(y) + BE16(w), BE16(h));
    SplitAt(d, q, [Flag(enable)] + BE16(x) + BE16(y), BE16(w));
    SplitAt(d, q, [Flag(enable)] + BE16(x), BE16(y));
    SplitAt(d, q, [Flag(enable)], BE16(x));
    assert d[q] == d[q..q + 1][0];
    GetBE16At(d, q + 1, x);
    GetBE16At(d, q + 3, y);
    GetBE16At(d, q + 5, w);
    GetBE16At(d, q + 7, h);
  }

  /** FrameStats reads back its two timings after three bytes of
      padding. */
  lemma FrameStatsReadBack(d: seq<byte>, q: nat, all: u32, render: u32)
    requires q + 11 <= |d| && d[q..q + 11] == [0, 0, 0] + BE32(all) + BE32(render)
    ensures FrameStatsAt(d, q) == Ok((FrameStats(all, render), q + 11))
  {
    SplitAt(d, q, [0, 0, 0] + BE32(all), BE32(render));
    SplitAt(d, q, [0, 0, 0], BE32(all));
    GetBE32At(d, q + 3, all);
    GetBE32At(d, q + 7, render);
  }

  // ---- FramebufferUpdateRequest ----

  function FramebufferUpdateRequestBody(inc: bool, x: u16, y: u16, w: u16, h: u16): (r: seq<byte>)
    ensures |r| == 9
  {
    [Flag(inc)] + BE16(x) + BE16(y) + BE16(w) + BE16(h)
  }

  /** The request reads back as the rectangle from (x, y) to (x + w,
      y + h), with its incremental flag. */
  lemma FramebufferUpdateRequestReadBack(d: seq<byte>, q: nat, inc: bool, x: u16, y: u16, w: u16, h: u16)
    requires q + 9 <= |d| && d[q..q + 9] == FramebufferUpdateRequestBody(inc, x, y, w, h)
    ensures FramebufferUpdateRequestAt(d, q) == Ok((FramebufferUpdateRequest(Rect(x, y, x + w, y + h), inc), q + 9))
  {
    SplitAt(d, q, [Flag(inc)] + BE16(x) + BE16(y) + BE16(w), BE16(h));
    SplitAt(d, q, [Flag(inc)] + BE16(x) + BE16(y), BE16(w));
    SplitAt(d, q, [Flag(inc)] + BE16(x), BE16(y));
    SplitAt(d, q, [Flag(inc)], BE16(x));
    assert d[q] == d[q..q + 1][0];
    GetBE16At(d, q + 1, x);
    GetBE16At(d, q + 3, y);
    GetBE16At(d, q + 5, w);
    GetBE16At(d, q + 7, h);
  }

  // ---- KeyEvent and PointerEvent ----

  function KeyEventBody(down: bool, key: u32): (r: seq<byte>)
    ensures |r| == 7
  {
    [Flag(down), 0, 0] + BE32(key)
  }

  /** A key event reads back with key code 0. */
  lemma KeyEventReadBack(d: seq<byte>, q: nat, down: bool, key: u32)
    requires q + 7 <= |d| && d[q..q + 7] == KeyEventBody(down, key)
    ensures KeyEventAt(d, q) == Ok((KeyEvent(key, 0, down), q + 7))
  {
    SplitAt(d, q, [Flag(down), 0, 0], BE32(key));
    assert d[q] == d[q..q + 3][0];
    GetBE32At(d, q + 3, key);
  }

  function PointerEventBody(mask: u16, x: u16, y: u16, scrollX: int, scrollY: int): (r: seq<byte>)
    ensures |r| == 10
  {
    BE16(mask) + BE16(x) + BE16(y) + BE16(ToU16(scrollX)) + BE16(ToU16(scrollY))
  }

  /** A pointer event reads back with its mask, position and signed
      scroll amounts. */
  lemma PointerEventReadBack(d: seq<byte>, q: nat, mask: u16, x: u16, y: u16, scrollX: int, scrollY: int)
    requires -0x8000 <= scrollX < 0x8000 && -0x8000 <= scrollY < 0x8000
    requires q + 10 <= |d| && d[q..q + 10] == PointerEventBody(mask, x, y, scrollX, scrollY)
    ensures PointerEventAt(d, q) == Ok((PointerEvent(x, y, mask, scrollX, scrollY), q + 10))
  {
    var sx, sy := ToU16(scrollX), ToU16(scrollY);
    SplitAt(d, q, BE16(mask) + BE16(x) + BE16(y) + BE16(sx), BE16(sy));
    SplitAt(d, q, BE16(mask) + BE16(x) + BE16(y), BE16(sx));
    SplitAt(d, q, BE16(mask) + BE16(x), BE16(y));
    SplitAt(d, q, BE16(mask), BE16(x));
    GetBE16At(d, q, mask);
    GetBE16At(d, q + 2, x);
    GetBE16At(d, q + 4, y);
    GetBE16At(d, q + 6, sx);
    GetBE16At(d, q + 8, sy);
    AsS16OfBits(scrollX);
    AsS16OfBits(scrollY);
  }

  // ---- Fence ----

  function FenceBody(flags: u32, payload: seq<byte>): (r: seq<byte>)
    requires |payload| < 0x100
    ensures |r| == 8 + |payload|
  {
    [0, 0, 0] + BE32(flags) + [|payload|] + payload
  }

  /** A fence is read whole; its payload reaches the handler only when it
      fits the 64-byte buffer. */
  lemma FenceReadBack(d: seq<byte>, q: nat, flags: u32, payload: seq<byte>)
    requires |payload| < 0x100
    requires q + 8 + |payload| <= |d| && d[q..q + 8 + |payload|] == FenceBody(flags, payload)
    ensures |payload| <= FencePayloadMax ==> FenceAt(d, q) == Ok((Fence(flags, payload), q + 8 + |payload|))
    ensures |payload| > FencePayloadMax ==> FenceAt(d, q) == Ok((Ignored, q + 8 + |payload|))
  {
    SplitAt(d, q, [0, 0, 0] + BE32(flags) + [|payload|], payload);
    SplitAt(d, q, [0, 0, 0] + BE32(flags), [|payload|]);
    SplitAt(d, q, [0, 0, 0], BE32(flags));
    assert d[q + 7] == d[q + 7..q + 8][0];
    GetBE32At(d, q + 3, flags);
  }

  // ---- QEMU key event ----

  function QemuKeyEventBody(down: bool, keysym: u32, keycode: u32): (r: seq<byte>)
    ensures |r| == 11
  {
    [QemuExtendedKeyEvent] + BE16(Flag(down)) + BE32(keysym) + BE32(keycode)
  }

  /** A QEMU key event reaches the handler with its key code, unless the
      key code is 0: then it is read and dropped. */
  lemma QemuKeyEventReadBack(d: seq<byte>, q: nat, down: bool, keysym: u32, keycode: u32)
    requires q + 11 <= |d| && d[q..q + 11] == QemuKeyEventBody(down, keysym, keycode)
    ensures keycode == 0 ==> QemuMessageAt(d, q) == Ok((Ignored, q + 11))
    ensures keycode != 0 ==> QemuMessageAt(d, q) == Ok((KeyEvent(keysym, keycode, down), q + 11))
  {
    SplitAt(d, q, [QemuExtendedKeyEvent] + BE16(Flag(down)) + BE32(keysym), BE32(keycode));
    SplitAt(d, q, [QemuExtendedKeyEvent] + BE16(Flag(down)), BE32(keysym));
    SplitAt(d, q, [QemuExtendedKeyEvent], BE16(Flag(down)));
    assert d[q] == d[q..q + 1][0];
    GetBE16At(d, q + 1, Flag(down));
    GetBE32At(d, q + 3, keysym);
    GetBE32At(d, q + 7, keycode);
  }

  // ---- ClientCutText ----

  /** ClientCutText hands nothing to the handler. A length with the high
      bit set announces an extended clipboard message of 2^32 - length
      bytes, refused when that is less than 4 (and for the length 2^31,
      whose negation overflows); a length without it is old-style text,
      skipped. */
  lemma ClientCutTextLengths(d: seq<byte>, q: nat)
    requires q + 7 <= |d|
    ensures var len := GetBE32(d, q + 3);
      len >= 0x8000_0000 ==>
        (ClientCutTextAt(d, q) == Err(InvalidExtendedClipboard) <==> len == 0x8000_0000 || len > TWO32 - 4)
    ensures var len := GetBE32(d, q + 3);
      len > 0x8000_0000 && len <= TWO32 - 4 ==>
        (ClientCutTextAt(d, q).Ok? <==> q + 7 + (TWO32 - len) <= |d|) &&
        (ClientCutTextAt(d, q).Ok? ==> ClientCutTextAt(d, q).value == (Ignored, q + 7 + (TWO32 - len)))
    ensures var len := GetBE32(d, q + 3);
      len < 0x8000_0000 ==>
        (ClientCutTextAt(d, q).Ok? <==> q + 7 + len <= |d|) &&
        (ClientCutTextAt(d, q).Ok? ==> ClientCutTextAt(d, q).value == (Ignored, q + 7 + len))
  {
  }

  // ---- UDP upgrade ----

  function UpgradeToUdpBody(request: seq<byte>): (r: seq<byte>)
    requires |request| < TWO16
    ensures |r| == 2 + |request|
  {
    BE16(|request|) + request
  }

  /** An empty request is a downgrade; one too large for the buffer is
      skipped; any other is handed on for the upgrade. The message is read
      whole in every case. */
  lemma UpgradeToUdpReadBack(d: seq<byte>, q: nat, request: seq<byte>)
    requires |request| < TWO16
    requires q + 2 + |request| <= |d| && d[q..q + 2 + |request|] == UpgradeToUdpBody(request)
    ensures |request| == 0 ==> UpgradeToUdpAt(d, q) == Ok((UdpDowngrade, q + 2))
    ensures 0 < |request| < UdpRequestMax ==> UpgradeToUdpAt(d, q) == Ok((UdpUpgrade(request), q + 2 + |request|))
    ensures |request| >= UdpRequestMax ==> UpgradeToUdpAt(d, q) == Ok((Ignored, q + 2 + |request|))
  {
    SplitAt(d, q, BE16(|request|), request);
    GetBE16At(d, q, |request|);
  }

  // ---- unix relays ----

  /** A length byte, a name, a four-byte length and data: the layout of a
      unix relay message and of a binary clipboard entry. */
  function NamedData(name: seq<byte>, data: seq<byte>): (r: seq<byte>)
    requires |name| < 0x100 && |data| < TWO32
    ensures |r| == 5 + |name| + |data|
  {
    [|name|] + name + BE32(|data|) + data
  }

  lemma NamedDataParts(d: seq<byte>, o: nat, name: seq<byte>, data: seq<byte>)
    requires |name| < 0x100 && |data| < TWO32
    requires o + 5 + |name| + |data| <= |d| && d[o..o + 5 + |name| + |data|] == NamedData(name, data)
    ensures d[o] == |name| && d[o + 1..o + 1 + |name|] == name
    ensures GetBE32(d, o + 1 + |name|) == |data| && d[o + 5 + |name|..o + 5 + |name| + |data|] == data
  {
    SplitAt(d, o, [|name|] + name + BE32(|data|), data);
    SplitAt(d, o, [|name|] + name, BE32(|data|));
    SplitAt(d, o, [|name|], name);
    assert d[o] == d[o..o + 1][0];
    GetBE32At(d, o + 1 + |name|, |data|);
  }

  /** A length byte followed by that many bytes. */
  lemma LengthPrefixed(d: seq<byte>, q: nat, name: seq<byte>)
    requires |name| < 0x100
    requires q + 1 + |name| <= |d| && d[q..q + 1 + |name|] == [|name|] + name
    ensures d[q] == |name| && d[q + 1..q + 1 + |name|] == name
  {
    SplitAt(d, q, [|name|], name);
    assert d[q] == d[q..q + 1][0];
  }

  /** A subscription names its relay, read up to the first NUL, unless the
      name does not fit the 64-byte buffer; then it is skipped. */
  lemma SubscribeUnixRelayReadBack(d: seq<byte>, q: nat, name: seq<byte>)
    requires |name| < 0x100
    requires q + 1 + |name| <= |d| && d[q..q + 1 + |name|] == [|name|] + name
    ensures |name| < RelayNameMax ==> SubscribeUnixRelayAt(d, q) == Ok((SubscribeUnixRelay(ConnParams.CStr(name)), q + 1 + |name|))
    ensures |name| >= RelayNameMax ==> SubscribeUnixRelayAt(d, q) == Ok((Ignored, q + 1 + |name|))
  {
    assert d[q] == |name| && d[q + 1..q + 1 + |name|] == name by {
      LengthPrefixed(d, q, name);
    }
  }

  /** A relay message with a name that fits is read whole; its data
      reaches the handler when it fits the 1 MiB buffer. */
  lemma UnixRelayReadBack(d: seq<byte>, q: nat, name: seq<byte>, data: seq<byte>)
    requires |name| < RelayNameMax && |data| < TWO32
    requires q + 5 + |name| + |data| <= |d| && d[q..q + 5 + |name| + |data|] == NamedData(name, data)
    ensures |data| < RelayDataMax ==>
      UnixRelayAt(d, q) == Ok((UnixRelay(ConnParams.CStr(name), data), q + 5 + |name| + |data|))
    ensures |data| >= RelayDataMax ==> UnixRelayAt(d, q) == Ok((Ignored, q + 5 + |name| + |data|))
  {
    assert d[q] == |name| && d[q + 1..q + 1 + |name|] == name &&
      GetBE32(d, q + 1 + |name|) == |data| && d[q + 5 + |name|..q + 5 + |name| + |data|] == data by {
      NamedDataParts(d, q, name, data);
    }
    assert UnixRelayAt(d, q) == RelayDataAt(d, q + 1 + |name|, ConnParams.CStr(name));
  }

  /** As written, a relay message whose name does not fit is read only up
      to the end of the name: its data length and data stay in the stream,
      and the next message is read from the first byte of that length. */
  lemma UnixRelayLongNameDesync(d: seq<byte>, q: nat, name: seq<byte>, data: seq<byte>)
    requires RelayNameMax <= |name| < 0x100 && |data| < TWO32
    requires q + 5 + |name| + |data| <= |d| && d[q..q + 5 + |name| + |data|] == NamedData(name, data)
    ensures UnixRelayAt(d, q) == Ok((Ignored, q + 1 + |name|))
    ensures q + 1 + |name| + 4 <= q + 5 + |name| + |data|
    ensures d[q + 1 + |name|] == BE32(|data|)[0]
  {
    SplitAt(d, q, [|name|] + name + BE32(|data|), data);
    SplitAt(d, q, [|name|] + name, BE32(|data|));
    SplitAt(d, q, [|name|], name);
    assert d[q] == d[q..q + 1][0];
    assert d[q + 1 + |name|] == d[q + 1 + |name|..q + 5 + |name|][0];
  }

  /** readUnixRelay as evidently intended: a name that does not fit is
      skipped, and so are the data length and the data after it, so that
      the message is read whole. */
  function FramedUnixRelayAt(d: seq<byte>, p: nat): (r: Outcome)
    ensures r.Ok? ==> p + 1 <= r.value.1 <= |d|
    ensures r.Ok? && r.value.0.UnixRelay? ==> |r.value.0.name| < RelayNameMax && |r.value.0.payload| < RelayDataMax
    ensures r.Err? ==> r.error == EndOfStream
  {
    if p + 1 > |d| then Err(EndOfStream)
    else
      var n := d[p];
      if p + 1 + n > |d| then Err(EndOfStream)
      else if n >= RelayNameMax then
        match RelayDataAt(d, p + 1 + n, [])
        case Err(e) => Err(e)
        case Ok((_, e)) => Ok((Ignored, e))
      else RelayDataAt(d, p + 1 + n, ConnParams.CStr(d[p + 1..p + 1 + n]))
  }

  /** With the correction every relay message is read whole, whatever the
      length of its name, and one whose name fits reads as before. */
  lemma FramedUnixRelayReadsWhole(d: seq<byte>, q: nat, name: seq<byte>, data: seq<byte>)
    requires |name| < 0x100 && |data| < TWO32
    requires q + 5 + |name| + |data| <= |d| && d[q..q + 5 + |name| + |data|] == NamedData(name, data)
    ensures FramedUnixRelayAt(d, q).Ok? && FramedUnixRelayAt(d, q).value.1 == q + 5 + |name| + |data|
    ensures |name| < RelayNameMax ==> FramedUnixRelayAt(d, q) == UnixRelayAt(d, q)
    ensures |name| >= RelayNameMax ==> FramedUnixRelayAt(d, q).value.0 == Ignored
  {
    NamedDataParts(d, q, name, data);
  }

  // ---- binary clipboard ----

  /** An entry a client can write: a name of at most 255 bytes and data
      of fewer than 2^32. */
  predicate WireClip(c: Clip)
  {
    |c.mime| < 0x100 && |c.data| < TWO32
  }

  /** The entries the handler is given for cs: the ones within max, in
      order, each with its name cut at the first NUL. */
  function Accepted(cs: seq<Clip>, max: i32): (r: seq<Clip>)
    ensures |r| <= |cs|
  {
    if |cs| == 0 then [] else Accepted(cs[..|cs| - 1], max) + Kept(cs[|cs| - 1], max)
  }

  /** One entry reads back as written. */
  lemma EntryReadBack(d: seq<byte>, o: nat, c: Clip)
    requires WireClip(c)
    requires o + 5 + |c.mime| + |c.data| <= |d| && d[o..o + 5 + |c.mime| + |c.data|] == NamedData(c.mime, c.data)
    ensures EntryAt(d, o) == Some((c, o + 5 + |c.mime| + |c.data|))
  {
    NamedDataParts(d, o, c.mime, c.data);
  }

  /** The entries cs laid out one after the other: the i-th written from
      qs[i] to qs[i + 1]. */
  predicate LaidOut(d: seq<byte>, qs: seq<nat>, cs: seq<Clip>)
  {
    |qs| == |cs| + 1 &&
    forall i :: 0 <= i < |cs| ==> EntryLaidOut(d, qs[i], cs[i], qs[i + 1])
  }

  predicate EntryLaidOut(d: seq<byte>, q: nat, c: Clip, e: nat)
  {
    WireClip(c) && q + 5 + |c.mime| + |c.data| == e <= |d| && d[q..e] == NamedData(c.mime, c.data)
  }

  /** Entries that read one after the other, the i-th from qs[i] to
      qs[i + 1], give the handler the ones within max. */
  lemma {:induction false} EntriesReadInTurn(d: seq<byte>, qs: seq<nat>, cs: seq<Clip>, max: i32)
    requires |qs| == |cs| + 1 && qs[0] <= |d|
    requires forall i :: 0 <= i < |cs| ==> EntryAt(d, qs[i]) == Some((cs[i], qs[i + 1]))
    ensures EntriesAt(d, qs[0], |cs|, max) == Some((Accepted(cs, max), qs[|cs|]))
  {
    var n := |cs|;
    if n > 0 {
      var pre := cs[..n - 1];
      assert EntriesAt(d, qs[0], n - 1, max) == Some((Accepted(pre, max), qs[n - 1])) by {
        var qs' := qs[..n];
        assert forall i :: 0 <= i < |pre| ==> EntryAt(d, qs'[i]) == Some((pre[i], qs'[i + 1])) by {
          forall i | 0 <= i < |pre|
            ensures EntryAt(d, qs'[i]) == Some((pre[i], qs'[i + 1]))
          {
            assert qs'[i] == qs[i] && qs'[i + 1] == qs[i + 1] && pre[i] == cs[i];
          }
        }
        EntriesReadInTurn(d, qs', pre, max);
      }
      assert EntryAt(d, qs[n - 1]) == Some((cs[n - 1], qs[n]));
      AcceptedStep(cs, max);
    }
  }

  /** Entries laid out one after the other read back, the refused ones
      dropped. */
  lemma EntriesReadBack(d: seq<byte>, qs: seq<nat>, cs: seq<Clip>, max: i32)
    requires LaidOut(d, qs, cs) && qs[0] <= |d|
    ensures EntriesAt(d, qs[0], |cs|, max) == Some((Accepted(cs, max), qs[|cs|]))
  {
    forall i | 0 <= i < |cs|
      ensures EntryAt(d, qs[i]) == Some((cs[i], qs[i + 1]))
    {
      assert EntryLaidOut(d, qs[i], cs[i], qs[i + 1]);
      EntryReadBack(d, qs[i], cs[i]);
    }
    EntriesReadInTurn(d, qs, cs, max);
  }

  lemma AcceptedStep(cs: seq<Clip>, max: i32)
    requires |cs| > 0
    ensures Accepted(cs, max) == Accepted(cs[..|cs| - 1], max) + Kept(cs[|cs| - 1], max)
  {
  }

  /** A binary clipboard message, its count byte and then the entries
      laid out, reads back as the entries within max, each announced by
      its name cut to 31 bytes. */
  lemma BinaryClipboardReadBack(d: seq<byte>, q: nat, qs: seq<nat>, cs: seq<Clip>, max: i32)
    requires |cs| < 0x100 && q < |d| && d[q] == |cs|
    requires LaidOut(d, qs, cs) && qs[0] == q + 1
    ensures BinaryClipboardAt(d, q, max) == Ok((BinaryClipboard(Accepted(cs, max), Names(Accepted(cs, max))), qs[|cs|]))
  {
    EntriesReadBack(d, qs, cs, max);
  }

  /** Every entry handed on is within max and has a NUL-free name. */
  lemma {:induction false} EntriesWithinMax(d: seq<byte>, o: nat, n: nat, max: i32)
    requires o <= |d| && EntriesAt(d, o, n, max).Some?
    ensures var cs := EntriesAt(d, o, n, max).value.0;
      forall i :: 0 <= i < |cs| ==> !Refused(|cs[i].data|, max) && 0 !in cs[i].mime
  {
    if n > 0 {
      EntriesWithinMax(d, o, n - 1, max);
    }
  }

  /** The i-th name announced is the i-th entry's name, cut to 31 bytes. */
  lemma {:induction false} NamesTruncated(cs: seq<Clip>)
    ensures forall i :: 0 <= i < |cs| ==> Names(cs)[i] == Truncated(cs[i].mime)
  {
    if |cs| > 0 {
      NamesTruncated(cs[..|cs| - 1]);
    }
  }

  /** With no limit set, every entry is handed on. */
  lemma {:induction false} AcceptedNoLimit(cs: seq<Clip>)
    ensures |Accepted(cs, 0)| == |cs|
    ensures forall i :: 0 <= i < |cs| ==> Accepted(cs, 0)[i] == Delivered(cs[i])
  {
    if |cs| > 0 {
      AcceptedNoLimit(cs[..|cs| - 1]);
    }
  }
}
