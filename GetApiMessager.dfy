/** The messenger between the web API threads and the VNC server's main
    loop: user management on the password file, the frame-statistics
    request gate, and the screenshot cache. The password file is its text
    (`None` when missing), the screen is its size and content hash, and the
    JPEG encoder's output for a request is a parameter. */
module GetApiMessager {
  import opened Wrappers
  import opened Bytes
  import opened WuString
  import opened KasmPasswd

  // ---- user updates (enum USER_UPDATE_MASK) ----

  const WriteMask: int := 1
  const OwnerMask: int := 2
  const PasswordMask: int := 4
  const ReadMask: int := 8

  /** mask & bit, for a single-bit mask. */
  predicate HasBit(mask: u64, bit: int)
    requires bit > 0
  {
    (mask / bit) % 2 == 1
  }

  /** The entry after netUpdateUser: exactly the fields whose mask bit is
      set take the new values. */
  function Updated(e: Entry, mask: u64, password: string, read: bool, write: bool, owner: bool): (r: Entry)
    ensures r.user == e.user
    ensures r.read == (if HasBit(mask, ReadMask) then read else e.read)
    ensures r.write == (if HasBit(mask, WriteMask) then write else e.write)
    ensures r.owner == (if HasBit(mask, OwnerMask) then owner else e.owner)
    ensures r.password == (if HasBit(mask, PasswordMask) then password else e.password)
  {
    var e1 := if HasBit(mask, ReadMask) then e.(read := read) else e;
    var e2 := if HasBit(mask, WriteMask) then e1.(write := write) else e1;
    var e3 := if HasBit(mask, OwnerMask) then e2.(owner := owner) else e2;
    if HasBit(mask, PasswordMask) then e3.(password := password) else e3
  }

  /** A mask without any of the four bits changes nothing. */
  lemma UpdatedNoBits(e: Entry, mask: u64, password: string, read: bool, write: bool, owner: bool)
    requires mask % 16 == 0
    ensures Updated(e, mask, password, read, write, owner) == e
  {
    assert !HasBit(mask, ReadMask) && !HasBit(mask, WriteMask) && !HasBit(mask, OwnerMask) && !HasBit(mask, PasswordMask) by {
      var h := mask / 16;
      assert mask == 16 * h;
      assert mask / 8 == 2 * h && mask / 4 == 4 * h && mask / 2 == 8 * h;
    }
  }

  // ---- frame statistics ----

  /** enum USER_ACTION. */
  datatype UserAction = NoAction | WantFrameStatsServerOnly | WantFrameStatsAll | WantFrameStatsOwner
                      | WantFrameStatsSpecific | UdpUpgrade | ClearClipboard

  /** An action for the main loop; a frame-statistics request carries the
      client name in the entry's password field (127 characters at most),
      or nothing when no client was given. */
  datatype Action = Action(what: UserAction, client: Option<string>)

  datatype ServerFrameStats = ServerFrameStats(
    all: u32, jpeg: u32, webp: u32, analysis: u32, jpegarea: u32, webparea: u32,
    njpeg: u16, nwebp: u16, enc: u16, scale: u16, shot: u16, w: u16, h: u16,
    changedPerc: byte, inprogress: byte)

  datatype ClientFrameStats = ClientFrameStats(render: u32, all: u32, ping: u32)

  const ZeroStats := ServerFrameStats(0, 0, 0, 0, 0, 0, 0, 0, 0, 0, 0, 0, 0, 0, 0)

  /** strncpy into the 128-byte password field, then the forced NUL. */
  function ClientField(client: string): (r: string)
    ensures |r| <= PasswordFieldMax && |r| <= |client| && r == client[..|r|]
    ensures |client| <= PasswordFieldMax ==> r == client
  {
    if |client| <= PasswordFieldMax then client else client[..PasswordFieldMax]
  }

  const PasswordFieldMax: nat := FieldSize - 1

  // ---- the screenshot cache ----

  /** The screen as the main loop last saw it and the cached JPEG with the
      (width, height, quality) it was encoded for. */
  datatype Screen = Screen(screenW: u16, screenH: u16, screenHash: u64,
                           cachedW: u16, cachedH: u16, cachedQ: byte, cachedJpeg: seq<byte>)

  /** mainUpdateScreen for a frame of the given size and content hash: a
      size change resets the hash and drops the cache, and so does a
      content change. */
  function UpdateScreen(s: Screen, width: u16, height: u16, newHash: u64): (r: Screen)
    ensures r.screenW == width && r.screenH == height && r.screenHash == newHash
    ensures width != s.screenW || height != s.screenH || newHash != s.screenHash ==>
      r.cachedW == 0 && r.cachedH == 0 && r.cachedQ == 0 && r.cachedJpeg == []
    ensures width == s.screenW && height == s.screenH && newHash == s.screenHash ==> r == s
  {
    var s1 := if width != s.screenW || height != s.screenH
      then Screen(width, height, 0, 0, 0, 0, [])
      else s;
    if newHash != s1.screenHash then s1.(cachedW := 0, cachedH := 0, cachedQ := 0, cachedJpeg := [], screenHash := newHash)
    else s1
  }

  /** The lower-case hexadecimal digit of a value below 16. */
  function HexDigit(d: int): (r: byte)
    requires 0 <= d < 16
  {
    if d < 10 then 48 + d else 87 + d
  }

  function HexValue(c: byte): int
  {
    if 48 <= c < 58 then c - 48 else if 97 <= c < 103 then c - 87 else 0
  }

  function Pow16(n: nat): (r: nat)
    ensures r > 0
  {
    if n == 0 then 1 else 16 * Pow16(n - 1)
  }

  lemma Pow16Values()
    ensures Pow16(15) == 0x1000_0000_0000_0000 && Pow16(16) == TWO64
  {
    assert Pow16(4) == 0x1_0000;
    assert Pow16(8) == 0x1_0000_0000;
    assert Pow16(12) == 0x1_0000_0000_0000;
  }

  /** printf("%" PRIx64, v): the digits of v without leading zeros. */
  function HexText(v: nat): (r: seq<byte>)
    ensures |r| >= 1
  {
    if v < 16 then [HexDigit(v)] else HexText(v / 16) + [HexDigit(v % 16)]
  }

  /** The last n hexadecimal digits of v, zero-padded. */
  function HexDigits(v: nat, n: nat): (r: seq<byte>)
    ensures |r| == n
  {
    if n == 0 then [] else HexDigits(v / 16, n - 1) + [HexDigit(v % 16)]
  }

  function ParseHex(s: seq<byte>): nat
  {
    if s == [] then 0 else 16 * ParseHex(s[..|s| - 1]) + HexValue(s[|s| - 1])
  }

  lemma DigitMod(a: nat, m: nat)
    requires m > 0
    ensures (a / 16 % m) * 16 + a % 16 == a % (16 * m)
  {
    var q, r := a / 16, a % 16;
    var t, s := q / m, q % m;
    assert a == (16 * m) * t + (16 * s + r);
    DivModUnique(t, 16 * m, 16 * s + r);
  }

  /** Reading n padded digits gives back v modulo 16^n. */
  lemma {:induction false} ParseHexDigits(v: nat, n: nat)
    ensures ParseHex(HexDigits(v, n)) == v % Pow16(n)
  {
    if n > 0 {
      var d := HexDigits(v, n);
      assert d[..|d| - 1] == HexDigits(v / 16, n - 1);
      ParseHexDigits(v / 16, n - 1);
      DigitMod(v, Pow16(n - 1));
    }
  }

  lemma {:induction false} HexTextShort(v: nat, k: nat)
    requires v < Pow16(k) && k >= 1
    ensures |HexText(v)| <= k
  {
    if v >= 16 {
      HexTextShort(v / 16, k - 1);
    }
  }

  /** The dedup reply as written: the unpadded digits, sprintf's NUL and
      whatever the staging buffer held after them, cut to the 16 bytes the
      reply length claims. */
  function DedupReplyAsWritten(hash: u64, staging: seq<byte>): (r: seq<byte>)
    requires |staging| >= 17
    ensures |r| == 16
  {
    Pow16Values();
    HexTextShort(hash, 16);
    (HexText(hash) + [0] + staging[|HexText(hash)| + 1..])[..16]
  }

  /** A hash whose top hexadecimal digit is zero (one in sixteen) is
      replied as fewer than 16 digits, a NUL, and stale bytes: for the hash
      0 the reply is "0", a NUL, and fourteen bytes of the old buffer. */
  lemma DedupReplyTruncated(staging: seq<byte>)
    requires |staging| >= 17
    ensures DedupReplyAsWritten(0, staging) == [48, 0] + staging[2..16]
    ensures forall h: u64 :: h < Pow16(15) ==>
      |HexText(h)| < 16 && DedupReplyAsWritten(h, staging)[|HexText(h)|] == 0
  {
    forall h: u64 | h < Pow16(15)
      ensures |HexText(h)| < 16 && DedupReplyAsWritten(h, staging)[|HexText(h)|] == 0
    {
      HexTextShort(h, 15);
    }
  }

  /** The dedup reply as evidently intended ("%016" PRIx64): 16 digits
      that give the hash back. */
  function DedupReply(hash: u64): (r: seq<byte>)
    ensures |r| == 16
  {
    HexDigits(hash, 16)
  }

  /** The reply reads back as the hash, so distinct screen contents give
      distinct replies. */
  lemma DedupReplyRoundTrip(a: u64, b: u64)
    ensures ParseHex(DedupReply(a)) == a
    ensures DedupReply(a) == DedupReply(b) ==> a == b
  {
    DedupReplyParses(a);
    DedupReplyParses(b);
  }

  lemma DedupReplyParses(a: u64)
    ensures ParseHex(DedupReply(a)) == a
  {
    var m := Pow16(16);
    Pow16Values();
    ParseHexDigits(a, 16);
    assert ParseHex(HexDigits(a, 16)) == a % m;
    ModSmall(a, m);
  }

  lemma ModSmall(a: nat, m: nat)
    requires a < m
    ensures a % m == a
  {
  }

  /** What netGetScreenshot returns: no image, or the bytes (whose length
      is the reply length). */
  datatype Shot = NoShot | Image(data: seq<byte>)

  /** netGetScreenshot: the size is clamped to the screen; an empty size,
      a quality above 9 or a missing staging buffer give nothing; the
      cache answers a request for exactly the cached (w, h, q), otherwise
      `jpeg` (the encoder's output for the clamped size and quality) is
      cached and returned. With dedup a hit answers the screen hash. */
  function Screenshot(s: Screen, w: u16, h: u16, q: byte, dedup: bool, staging: bool, jpeg: seq<byte>): (r: (Screen, Shot))
    ensures var cw := if w > s.screenW then s.screenW else w;
      var ch := if h > s.screenH then s.screenH else h;
      (r.1 == NoShot <==> cw == 0 || ch == 0 || q > 9 || !staging) &&
      (r.1 == NoShot ==> r.0 == s) &&
      (r.1 != NoShot && (cw, ch, q) == (s.cachedW, s.cachedH, s.cachedQ) ==>
        r.0 == s && r.1 == Image(if dedup then DedupReply(s.screenHash) else s.cachedJpeg)) &&
      (r.1 != NoShot && (cw, ch, q) != (s.cachedW, s.cachedH, s.cachedQ) ==>
        r.1 == Image(jpeg) && r.0 == s.(cachedW := cw, cachedH := ch, cachedQ := q, cachedJpeg := jpeg))
  {
    var cw := if w > s.screenW then s.screenW else w;
    var ch := if h > s.screenH then s.screenH else h;
    if cw == 0 || ch == 0 || q > 9 || !staging then (s, NoShot)
    else if cw == s.cachedW && ch == s.cachedH && q == s.cachedQ then
      (s, Image(if dedup then DedupReply(s.screenHash) else s.cachedJpeg))
    else
      (s.(cachedW := cw, cachedH := ch, cachedQ := q, cachedJpeg := jpeg), Image(jpeg))
  }

  /** Asking twice for the same screenshot encodes once: the second answer
      is the first one's bytes, whatever the encoder would give. */
  lemma RepeatIsCached(s: Screen, w: u16, h: u16, q: byte, jpeg: seq<byte>, jpeg2: seq<byte>)
    requires Screenshot(s, w, h, q, false, true, jpeg).1 != NoShot
    ensures var first := Screenshot(s, w, h, q, false, true, jpeg);
      var second := Screenshot(first.0, w, h, q, false, true, jpeg2);
      second == (first.0, first.1)
  {
  }

  /** After the screen changes, no request is served from the cache. */
  lemma ChangeInvalidates(s: Screen, width: u16, height: u16, newHash: u64,
                          w: u16, h: u16, q: byte, dedup: bool, jpeg: seq<byte>)
    requires width != s.screenW || height != s.screenH || newHash != s.screenHash
    requires Screenshot(UpdateScreen(s, width, height, newHash), w, h, q, dedup, true, jpeg).1 != NoShot
    ensures Screenshot(UpdateScreen(s, width, height, newHash), w, h, q, dedup, true, jpeg).1 == Image(jpeg)
  {
  }

  // ---- the messenger ----

  class Messager {
    /** passwdfile != NULL. */
    const hasPath: bool
    /** The password file's contents. */
    var passwd: Option<string>

    var screen: Screen

    var serverFrameStats: ServerFrameStats
    var clientFrameStats: map<string, ClientFrameStats>
    var actionQueue: seq<Action>

    /** The entries readkasmpasswd gives; with no path configured fopen
        fails and the set is empty. */
    function Current(): seq<Entry>
      reads this
    {
      Parse(if hasPath then passwd else None)
    }

    /** The password file after writekasmpasswd of entries; with no path
        configured the write cannot reach it. */
    function Stored(entries: seq<Entry>): Option<string>
      reads this
    {
      if hasPath then Written(passwd, entries) else passwd
    }

    constructor (hasPath: bool, passwd: Option<string>)
      ensures this.hasPath == hasPath && this.passwd == passwd
      ensures screen == Screen(0, 0, 0, 0, 0, 0, [])
      ensures serverFrameStats.inprogress == 0 && clientFrameStats == map[] && actionQueue == []
    {
      this.hasPath := hasPath;
      this.passwd := passwd;
      screen := Screen(0, 0, 0, 0, 0, 0, []);
      serverFrameStats := ZeroStats;
      clientFrameStats := map[];
      actionQueue := [];
    }

    /** mainUpdateScreen. */
    method MainUpdateScreen(width: u16, height: u16, newHash: u64)
      modifies this`screen
      ensures screen == UpdateScreen(old(screen), width, height, newHash)
    {
      if width != screen.screenW || height != screen.screenH {
        screen := Screen(width, height, 0, 0, 0, 0, []);
      }
      if newHash != screen.screenHash {
        screen := screen.(cachedW := 0, cachedH := 0, cachedQ := 0, cachedJpeg := [], screenHash := newHash);
      }
    }

    /** netGetScreenshot; `len` is the length of the returned bytes, 0
        with no image. */
    method NetGetScreenshot(w: u16, h: u16, q: byte, dedup: bool, staging: bool, jpeg: seq<byte>)
      returns (ret: Shot, len: nat)
      modifies this`screen
      ensures (screen, ret) == Screenshot(old(screen), w, h, q, dedup, staging, jpeg)
      ensures len == if ret.Image? then |ret.data| else 0
    {
      var cw, ch := w, h;
      if cw > screen.screenW {
        cw := screen.screenW;
      }
      if ch > screen.screenH {
        ch := screen.screenH;
      }
      if cw == 0 || ch == 0 || q > 9 || !staging {
        return NoShot, 0;
      }
      if cw == screen.cachedW && ch == screen.cachedH && q == screen.cachedQ {
        if dedup {
          ret := Image(DedupReply(screen.screenHash));
          len := 16;
        } else {
          ret := Image(screen.cachedJpeg);
          len := |screen.cachedJpeg|;
        }
      } else {
        screen := screen.(cachedW := cw, cachedH := ch, cachedQ := q, cachedJpeg := jpeg);
        ret := Image(jpeg);
        len := |jpeg|;
      }
    }

    /** netAddUser: refuses a name or password too long for its field, a
        missing path and an existing name; otherwise appends the entry and
        writes the file. */
    method NetAddUser(name: string, pw: string, read: bool, write: bool, owner: bool) returns (r: byte)
      modifies this`passwd
      ensures |name| >= FieldSize || |pw| >= FieldSize || !hasPath ==> r == 0 && passwd == old(passwd)
      ensures |name| < FieldSize && |pw| < FieldSize && hasPath ==>
        var entries := old(Current());
        if FirstIndex(Users(entries), name) >= 0 then r == 0 && passwd == old(passwd)
        else r == 1 && passwd == Some(Render(entries + [Entry(name, pw, read, write, owner)]))
    {
      if |name| >= FieldSize || |pw| >= FieldSize || !hasPath {
        return 0;
      }
      var entries := ReadKasmPasswd(passwd);
      var s := FindUser(entries, name);
      if s >= 0 {
        return 0;
      }
      var w := WriteKasmPasswd(entries + [Entry(name, pw, read, write, owner)]);
      passwd := w;
      return 1;
    }

    /** netRemoveUser: blanks the first entry with the name and writes the
        file; an unknown name gives 0 and no write. */
    method NetRemoveUser(name: string) returns (r: byte)
      modifies this`passwd
      ensures |name| >= FieldSize ==> r == 0 && passwd == old(passwd)
      ensures |name| < FieldSize ==>
        var entries := old(Current());
        var i := FirstIndex(Users(entries), name);
        if i == -1 then r == 0 && passwd == old(passwd)
        else r == 1 && passwd == old(Stored(Blank(entries, i)))
    {
      if |name| >= FieldSize {
        return 0;
      }
      var entries := ReadKasmPasswd(if hasPath then passwd else None);
      var s := FindUser(entries, name);
      if s == -1 {
        return 0;
      }
      var w := WriteKasmPasswd(Blank(entries, s));
      if hasPath {
        passwd := w;
      }
      return 1;
    }

    /** netUpdateUser: refuses long strings and an empty mask; changes the
        masked fields of the first entry with the name and writes the
        file; an unknown name gives 0 and no write. */
    method NetUpdateUser(name: string, mask: u64, password: string, read: bool, write: bool, owner: bool)
      returns (r: byte)
      modifies this`passwd
      ensures |name| >= FieldSize || |password| >= FieldSize || mask == 0 ==> r == 0 && passwd == old(passwd)
      ensures |name| < FieldSize && |password| < FieldSize && mask != 0 ==>
        var entries := old(Current());
        var i := FirstIndex(Users(entries), name);
        if i == -1 then r == 0 && passwd == old(passwd)
        else r == 1 && passwd == old(Stored(entries[i := Updated(entries[i], mask, password, read, write, owner)]))
    {
      if |name| >= FieldSize || |password| >= FieldSize || mask == 0 {
        return 0;
      }
      var entries := ReadKasmPasswd(if hasPath then passwd else None);
      var s := FindUser(entries, name);
      if s == -1 {
        return 0;
      }
      var w := WriteKasmPasswd(entries[s := Updated(entries[s], mask, password, read, write, owner)]);
      if hasPath {
        passwd := w;
      }
      return 1;
    }

    /** netAddOrUpdateUser: replaces the first entry with the same name or
        appends one, writes the file, and reports success. */
    method NetAddOrUpdateUser(e: Entry) returns (r: byte)
      requires Fits(e)
      modifies this`passwd
      ensures r == 1
      ensures passwd == old(Stored(Upsert(Current(), FirstIndex(Users(Current()), e.user), e)))
    {
      var entries := ReadKasmPasswd(if hasPath then passwd else None);
      var s := FindUser(entries, e.user);
      var w := WriteKasmPasswd(Upsert(entries, s, e));
      if hasPath {
        passwd := w;
      }
      return 1;
    }

    /** netRequestFrameStats: refused while a request is in progress;
        otherwise the statistics are cleared, the request marked in
        progress, and one action queued for the main loop. */
    method NetRequestFrameStats(what: UserAction, client: Option<string>) returns (r: byte)
      modifies this`serverFrameStats, this`clientFrameStats, this`actionQueue
      ensures old(serverFrameStats.inprogress) != 0 ==>
        r == 0 && serverFrameStats == old(serverFrameStats) &&
        clientFrameStats == old(clientFrameStats) && actionQueue == old(actionQueue)
      ensures old(serverFrameStats.inprogress) == 0 ==>
        r == 1 && serverFrameStats == ZeroStats.(inprogress := 1) && clientFrameStats == map[] &&
        actionQueue == old(actionQueue) + [Action(what, if client.Some? then Some(ClientField(client.value)) else None)]
    {
      if serverFrameStats.inprogress != 0 {
        return 0;
      }
      clientFrameStats := map[];
      serverFrameStats := ZeroStats.(inprogress := 1);
      var act := Action(what, if client.Some? then Some(ClientField(client.value)) else None);
      actionQueue := actionQueue + [act];
      return 1;
    }

    /** netResetFrameStatsCall: the request is no longer in progress. */
    method NetResetFrameStatsCall()
      modifies this`serverFrameStats
      ensures serverFrameStats == old(serverFrameStats).(inprogress := 0)
    {
      serverFrameStats := serverFrameStats.(inprogress := 0);
    }

    /** The state change of netGetFrameStats (its JSON text is not
        modelled): a buffer of at least 1024 bytes gets the report and ends
        the request; a smaller one gets an empty string. */
    method NetGetFrameStats(len: u32)
      modifies this`serverFrameStats
      ensures len < 1024 ==> serverFrameStats == old(serverFrameStats)
      ensures len >= 1024 ==> serverFrameStats == old(serverFrameStats).(inprogress := 0)
    {
      if len >= 1024 {
        serverFrameStats := serverFrameStats.(inprogress := 0);
      }
    }
  }
}
