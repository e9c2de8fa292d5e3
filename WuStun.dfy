/** The STUN codec of the WebRTC data-channel server (RFC 5389): the parser
    of Binding requests, which extracts the ICE user names of the USERNAME
    attribute, and the writer of the Binding success response. */
module WuStun {
  import opened Bytes
  import opened WuBufferOp
  import opened WuString

  // ---- constants ----

  const StunHeaderLength: int := 20
  const MaxStunIdentifierLength: int := 128
  const StunTransactionIdLength: int := 12
  const StunCookie: u32 := 0x2112_a442
  const StunXorMagic: u16 := 0x2112

  const StunIpv4: byte := 0x01
  const StunIpv6: byte := 0x02

  const StunBindingRequest: u16 := 0x0001
  const StunSuccessResponse: u16 := 0x0101

  const StunAttribUser: u16 := 0x06
  const StunAttribMessageIntegrity: u16 := 0x08
  const StunAttribXorMappedAddress: u16 := 0x20
  const StunAttribFingerprint: u16 := 0x8028

  /** The constant a FINGERPRINT's CRC is XORed with (section 15.5 of
      RFC 5389). */
  const FingerprintXor: u32 := 0x5354_554e

  /** The byte ':' separating the two halves of a USERNAME. */
  const Colon: byte := 0x3A

  // ---- data model ----

  datatype StunAddress = StunAddress(family: byte, port: u16, ipv4: u32)

  /** The fields of a STUN message the server reads or writes. A user name
      is the byte run its length designates. */
  datatype StunPacket = StunPacket(stunType: u16, length: u16, cookie: u32,
                                   transactionId: seq<byte>, remoteUser: seq<byte>,
                                   serverUser: seq<byte>, xorMappedAddress: StunAddress)

  // ---- parsing a Binding request ----

  /** What the attribute walk concludes: the request is refused, it carries
      no USERNAME, or its USERNAME splits into the server's and the remote
      peer's user fragments. */
  datatype Scan = Rejected | NoUser | User(serverUser: seq<byte>, remoteUser: seq<byte>)

  /** The verdict on a USERNAME value "server:remote"; UserVerdictSplits
      states what it accepts. */
  function UserVerdict(uname: seq<byte>): Scan {
    var k := FirstIndex(uname, Colon);
    if k < 4 then Rejected
    else if k > MaxStunIdentifierLength || |uname| - k - 1 > MaxStunIdentifierLength then Rejected
    else User(uname[..k], uname[k + 1..])
  }

  /** A USERNAME value is accepted exactly when its first colon sits at
      index 4 or later and both halves fit in 128 bytes; the halves then
      rejoin with the colon into the value. */
  lemma UserVerdictSplits(uname: seq<byte>)
    ensures var r := UserVerdict(uname);
      !r.NoUser? &&
      (r.User? <==>
        var k := FirstIndex(uname, Colon);
        4 <= k <= MaxStunIdentifierLength && |uname| - k - 1 <= MaxStunIdentifierLength) &&
      (r.User? ==>
        uname == r.serverUser + [Colon] + r.remoteUser && Colon !in r.serverUser &&
        4 <= |r.serverUser| <= MaxStunIdentifierLength && |r.remoteUser| <= MaxStunIdentifierLength)
  {
    var k := FirstIndex(uname, Colon);
    if UserVerdict(uname).User? {
      assert uname == uname[..k] + [Colon] + uname[k + 1..];
    }
  }

  /** Where the attribute walk ends: on a malformed attribute list, at
      maxOffset without a USERNAME, or at the value of the first USERNAME,
      which is body[start..end]. */
  datatype Walk = Malformed | Ended | UserAt(start: nat, end: nat)

  /** The attribute walk of ParseStun over the bytes after the header, from
      offset off: it goes on while off is below maxOffset, needs four bytes
      for each attribute header, stops at the first USERNAME, which must
      fit with its padding and be at least 9 bytes long, and skips any
      other attribute padded to a multiple of four bytes. */
  function WalkFrom(body: seq<byte>, off: nat, maxOffset: int): (r: Walk)
    ensures r.UserAt? ==> off + 4 <= r.start <= r.end <= |body|
    decreases maxOffset - off
  {
    if off >= maxOffset then Ended
    else if |body| - off < 4 then Malformed
    else
      var t := GetBE16(body, off);
      var l := GetBE16(body, off + 2) as int;
      var remain := |body| - off - 4;
      var padded := l + Pad4(l);
      if t == StunAttribUser then
        if padded <= remain && l >= 9 then UserAt(off + 4, off + 4 + l)
        else Malformed
      else WalkFrom(body, off + 4 + padded, maxOffset)
  }

  /** The outcome of a walk: a USERNAME value is split by UserVerdict. */
  function Verdict(body: seq<byte>, w: Walk): Scan
    requires w.UserAt? ==> w.start <= w.end <= |body|
  {
    match w
    case Malformed => Rejected
    case Ended => NoUser
    case UserAt(start, end) => UserVerdict(body[start..end])
  }

  /** A walk w that ends at the USERNAME value v = body[start..end] gives
      the verdict on v. */
  lemma VerdictAt(body: seq<byte>, w: Walk, start: nat, end: nat, v: seq<byte>)
    requires start <= end <= |body| && w == UserAt(start, end) && body[start..end] == v
    ensures Verdict(body, w) == UserVerdict(v)
  {
  }

  /** The verdict of the attribute walk from offset off. */
  function ScanFrom(body: seq<byte>, off: nat, maxOffset: int): Scan {
    Verdict(body, WalkFrom(body, off, maxOffset))
  }

  /** The header checks: a Binding request whose message length claims at
      least one attribute header and no more bytes than arrived. */
  predicate HeaderOk(s: seq<byte>) {
    |s| >= StunHeaderLength && s[0] == 0 && s[1] == 1 &&
    GetBE16(s, 0) == StunBindingRequest &&
    4 <= GetBE16(s, 2) <= |s| - StunHeaderLength
  }

  /** The attribute walk over a whole message, up to one byte before the
      end its message length gives. */
  function StunScan(s: seq<byte>): Scan
    requires |s| >= StunHeaderLength
  {
    ScanFrom(s[StunHeaderLength..], 0, GetBE16(s, 2) as int - 1)
  }

  /** The datagrams ParseStun accepts. */
  predicate Accepts(s: seq<byte>) {
    HeaderOk(s) && StunScan(s) != Rejected
  }

  lemma ReadNet16(s: seq<byte>, o: nat, v: nat)
    requires ScalarWidth(2) && o + 2 <= |s| && v < Limit(2) && NetBytes(2, v) == s[o..o + 2]
    ensures GetBE16(s, o) == v
  {
    GetBE16At(s, o, v);
  }

  lemma ReadNet32(s: seq<byte>, o: nat, v: nat)
    requires ScalarWidth(4) && o + 4 <= |s| && v < Limit(4) && NetBytes(4, v) == s[o..o + 4]
    ensures GetBE32(s, o) == v
  {
    GetBE32At(s, o, v);
  }

  /** The walk over a message whose message length is length. */
  lemma StunScanIs(s: seq<byte>, length: int, r: Scan)
    requires |s| >= StunHeaderLength && length == GetBE16(s, 2) as int
    requires r == ScanFrom(s[StunHeaderLength..], 0, length - 1)
    ensures StunScan(s) == r
  {
  }

  /** ParseStun: true for a Binding request whose attributes pass the walk.
      The fields are filled in as they are read; the user names only when a
      USERNAME is found, so without one they keep what prev held. */
  method ParseStun(src: array<byte>, prev: StunPacket) returns (ok: bool, packet: StunPacket)
    ensures ok <==> Accepts(src[..])
    ensures ok ==>
      HeaderOk(src[..]) &&
      packet.stunType == StunBindingRequest && packet.length == GetBE16(src[..], 2) &&
      packet.cookie == GetBE32(src[..], 4) && packet.transactionId == src[8..20] &&
      packet.xorMappedAddress == prev.xorMappedAddress
    ensures ok && StunScan(src[..]).User? ==>
      packet.serverUser == StunScan(src[..]).serverUser &&
      packet.remoteUser == StunScan(src[..]).remoteUser
    ensures ok && StunScan(src[..]).NoUser? ==>
      packet.serverUser == prev.serverUser && packet.remoteUser == prev.remoteUser
  {
    packet := prev;
    var len := src.Length;
    if len < StunHeaderLength || src[0] != 0 || src[1] != 1 {
      return false, packet;
    }
    var stunType, _ := ReadScalarSwapped(src, 0, 2);
    ReadNet16(src[..], 0, stunType);
    packet := packet.(stunType := stunType);
    if stunType != StunBindingRequest {
      return false, packet;
    }
    var length, _ := ReadScalarSwapped(src, 2, 2);
    ReadNet16(src[..], 2, length);
    packet := packet.(length := length);
    if length < 4 || length > len - StunHeaderLength {
      return false, packet;
    }
    var cookie, _ := ReadScalarSwapped(src, 4, 4);
    ReadNet32(src[..], 4, cookie);
    packet := packet.(cookie := cookie);
    var tid: seq<byte> := [];
    for i := 0 to StunTransactionIdLength
      invariant tid == src[8..8 + i]
    {
      tid := tid + [src[8 + i]];
    }
    packet := packet.(transactionId := tid);

    var verdict := WalkAttributes(src, length as int - 1);
    StunScanIs(src[..], length as int, verdict);
    match verdict
    case Rejected => return false, packet;
    case NoUser => return true, packet;
    case User(serverUser, remoteUser) =>
      packet := packet.(serverUser := serverUser, remoteUser := remoteUser);
      return true, packet;
  }

  /** The attribute loop of ParseStun, up to maxOffset: Rejected where the
      parse fails, the split user names where a USERNAME ends it, NoUser
      where the loop runs out. */
  method WalkAttributes(src: array<byte>, maxOffset: int) returns (r: Scan)
    requires StunHeaderLength <= src.Length
    ensures r == ScanFrom(src[StunHeaderLength..], 0, maxOffset)
  {
    ghost var body := src[StunHeaderLength..];
    ghost var goal := WalkFrom(body, 0, maxOffset);
    var len := src.Length;
    var payloadOffset := 0;
    while payloadOffset < maxOffset
      invariant WalkFrom(body, payloadOffset, maxOffset) == goal
      decreases maxOffset - payloadOffset
    {
      var remain := len - StunHeaderLength - payloadOffset;
      if remain < 4 {
        WalkShort(body, payloadOffset, maxOffset);
        return Rejected;
      }
      var payloadType, payloadLength := ReadAttributeHeader(src, payloadOffset);
      Pad4IsPadSize(payloadLength);
      var paddedLength := payloadLength + PadSize(payloadLength, 4);
      if payloadType == StunAttribUser {
        if paddedLength <= remain - 4 && payloadLength >= 9 {
          var at := StunHeaderLength + payloadOffset + 4;
          var uname := src[at..at + payloadLength];
          SuffixSlice(src[..], body, StunHeaderLength, payloadOffset + 4, payloadLength, uname);
          UserStep(body, payloadOffset, maxOffset, payloadLength);
          VerdictAt(body, goal, payloadOffset + 4, payloadOffset + 4 + payloadLength as int, uname);
          var found, serverUser, remoteUser := SplitUser(uname);
          if !found {
            return Rejected;
          }
          return User(serverUser, remoteUser);
        }
        WalkStep(body, payloadOffset, maxOffset);
        return Rejected;
      }
      OtherStep(body, payloadOffset, maxOffset, payloadOffset + 4 + paddedLength);
      payloadOffset := payloadOffset + 4 + paddedLength;
    }
    assert src[StunHeaderLength..] == body;
    return NoUser;
  }

  /** A slice of a suffix is a slice of the whole. */
  lemma SuffixSlice(s: seq<byte>, suffix: seq<byte>, k: nat, i: nat, n: nat, u: seq<byte>)
    requires k + i + n <= |s| && suffix == s[k..] && u == s[k + i..k + i + n]
    ensures suffix[i..i + n] == u
  {
  }

  /** The type and length fields of the attribute header at offset off
      after the STUN header. */
  method ReadAttributeHeader(src: array<byte>, off: nat) returns (t: nat, l: nat)
    requires StunHeaderLength + off + 4 <= src.Length
    ensures t == GetBE16(src[StunHeaderLength..], off) && l == GetBE16(src[StunHeaderLength..], off + 2)
  {
    var at := StunHeaderLength + off;
    var n;
    t, n := ReadScalarSwapped(src, at, 2);
    ReadNet16(src[..], at, t);
    l, n := ReadScalarSwapped(src, at + 2, 2);
    ReadNet16(src[..], at + 2, l);
  }

  /** The USERNAME split of ParseStun: the first colon ends the server
      part, which must be 4 to 128 bytes long, and the remote part after
      it may hold at most 128. */
  method SplitUser(uname: seq<byte>) returns (ok: bool, serverUser: seq<byte>, remoteUser: seq<byte>)
    ensures ok <==> UserVerdict(uname).User?
    ensures ok ==> serverUser == UserVerdict(uname).serverUser && remoteUser == UserVerdict(uname).remoteUser
  {
    var colonIndex := FindTokenIndex(uname, |uname|, Colon);
    assert uname[..|uname|] == uname;
    if colonIndex < 4 {
      return false, [], [];
    }
    var serverUserLength := colonIndex;
    var remoteUserLength := |uname| - colonIndex - 1;
    if serverUserLength > MaxStunIdentifierLength || remoteUserLength > MaxStunIdentifierLength {
      return false, [], [];
    }
    return true, uname[..serverUserLength], uname[colonIndex + 1..];
  }

  /** ParseStun followed by the check its callers need: a request without
      a USERNAME is refused, so an accepted packet always carries the user
      names it was sent with. */
  method ParseStunWithUser(src: array<byte>, prev: StunPacket) returns (ok: bool, packet: StunPacket)
    ensures ok <==> HeaderOk(src[..]) && StunScan(src[..]).User?
    ensures ok ==>
      packet.serverUser == StunScan(src[..]).serverUser &&
      packet.remoteUser == StunScan(src[..]).remoteUser &&
      packet.transactionId == src[8..20]
  {
    ok, packet := ParseStun(src, prev);
    if ok && !StunScan(src[..]).User? {
      ok := false;
    }
  }

  // ---- Binding requests, as a sender lays them out ----

  /** An attribute: its type and its value, before padding. */
  datatype Attribute = Attribute(attrType: u16, value: seq<byte>)

  predicate Encodable(attrs: seq<Attribute>) {
    forall i :: 0 <= i < |attrs| ==> |attrs[i].value| < TWO16
  }

  /** An attribute on the wire: type, length, value, zero padding. */
  function AttributeBytes(a: Attribute): (r: seq<byte>)
    requires |a.value| < TWO16
    ensures |r| == 4 + |a.value| + Pad4(|a.value|)
  {
    BE16(a.attrType) + BE16(|a.value|) + a.value + Zeros(Pad4(|a.value|))
  }

  function AttributesBytes(attrs: seq<Attribute>): (r: seq<byte>)
    requires Encodable(attrs)
    decreases |attrs|
  {
    if attrs == [] then []
    else AttributeBytes(attrs[0]) + AttributesBytes(attrs[1..])
  }

  /** The reference reading of an attribute list: the verdict on the first
      USERNAME, which must be at least 9 bytes long. */
  function FirstUser(attrs: seq<Attribute>): (r: Scan)
    decreases |attrs|
  {
    if attrs == [] then NoUser
    else if attrs[0].attrType == StunAttribUser then
      if |attrs[0].value| >= 9 then UserVerdict(attrs[0].value) else Rejected
    else FirstUser(attrs[1..])
  }

  /** A Binding request carrying the attributes, its message length
      covering exactly them. */
  function BindingRequest(cookie: u32, tid: seq<byte>, attrs: seq<Attribute>): (r: seq<byte>)
    requires |tid| == StunTransactionIdLength && Encodable(attrs)
    requires |AttributesBytes(attrs)| < TWO16
  {
    BE16(StunBindingRequest) + BE16(|AttributesBytes(attrs)|) + BE32(cookie) + tid +
    AttributesBytes(attrs)
  }

  /** One step of the walk at an attribute header that lies within the
      bytes and before maxOffset. */
  lemma {:induction false} WalkStep(body: seq<byte>, off: nat, maxOffset: int)
    requires off < maxOffset && off + 4 <= |body|
    ensures var l := GetBE16(body, off + 2) as int;
      WalkFrom(body, off, maxOffset) ==
        if GetBE16(body, off) != StunAttribUser then WalkFrom(body, off + 4 + l + Pad4(l), maxOffset)
        else if l + Pad4(l) <= |body| - off - 4 && l >= 9 then UserAt(off + 4, off + 4 + l)
        else Malformed
  {
  }

  /** The walk stops on a malformed list where fewer than four bytes are
      left before maxOffset. */
  lemma {:induction false} WalkShort(body: seq<byte>, off: nat, maxOffset: int)
    requires off < maxOffset && |body| - off < 4
    ensures WalkFrom(body, off, maxOffset) == Malformed
  {
  }

  /** The walk over an encoded attribute list reaches the verdict of the
      reference reading. */
  lemma {:induction false} ScanAttributes(body: seq<byte>, off: nat, attrs: seq<Attribute>)
    requires Encodable(attrs) && off <= |body| && body[off..] == AttributesBytes(attrs)
    ensures ScanFrom(body, off, |body| - 1) == FirstUser(attrs)
    decreases |attrs|
  {
    if attrs == [] {
      assert off == |body|;
    } else if attrs[0].attrType == StunAttribUser {
      ScanFirstUser(body, off, attrs);
    } else {
      var next := ScanFirstOther(body, off, attrs);
      ScanAttributes(body, next, attrs[1..]);
    }
  }

  /** The first attribute stored at off, and the rest after it. */
  lemma {:induction false} SplitFirst(body: seq<byte>, off: nat, attrs: seq<Attribute>)
    requires Encodable(attrs) && attrs != [] && off <= |body| && body[off..] == AttributesBytes(attrs)
    ensures var ab := AttributeBytes(attrs[0]);
      off + |ab| <= |body| && body[off..off + |ab|] == ab &&
      Encodable(attrs[1..]) && body[off + |ab|..] == AttributesBytes(attrs[1..])
  {
    var ab := AttributeBytes(attrs[0]);
    var tail := attrs[1..];
    assert Encodable(tail) by {
      forall i | 0 <= i < |tail| ensures |tail[i].value| < TWO16 { assert tail[i] == attrs[i + 1]; }
    }
    assert body[off..] == ab + AttributesBytes(tail);
    assert body[off..off + |ab|] == body[off..][..|ab|];
    assert body[off + |ab|..] == body[off..][|ab|..];
  }

  /** The header and value of the first attribute, read where it is
      stored. */
  lemma {:induction false} FirstHeader(body: seq<byte>, off: nat, attrs: seq<Attribute>)
    requires Encodable(attrs) && attrs != [] && off <= |body| && body[off..] == AttributesBytes(attrs)
    ensures var v := attrs[0].value;
      off + 4 + |v| + Pad4(|v|) <= |body| &&
      GetBE16(body, off) == attrs[0].attrType && GetBE16(body, off + 2) as int == |v| &&
      body[off + 4..off + 4 + |v|] == v
  {
    SplitFirst(body, off, attrs);
    AttributeFields(body, off, attrs[0]);
  }

  /** The walk at a USERNAME header followed by its value v and the
      padding. */
  lemma {:induction false} UserFirst(body: seq<byte>, off: nat, v: seq<byte>)
    requires off + 4 + |v| + Pad4(|v|) <= |body|
    requires GetBE16(body, off) == StunAttribUser && GetBE16(body, off + 2) as int == |v|
    requires body[off + 4..off + 4 + |v|] == v
    ensures ScanFrom(body, off, |body| - 1) == if |v| >= 9 then UserVerdict(v) else Rejected
  {
    UserStep(body, off, |body| - 1, |v|);
    if |v| >= 9 {
      VerdictAt(body, WalkFrom(body, off, |body| - 1), off + 4, off + 4 + |v|, v);
    }
  }

  /** The walk at a first attribute that is a USERNAME. */
  lemma {:induction false} ScanFirstUser(body: seq<byte>, off: nat, attrs: seq<Attribute>)
    requires Encodable(attrs) && attrs != [] && off <= |body| && body[off..] == AttributesBytes(attrs)
    requires attrs[0].attrType == StunAttribUser
    ensures ScanFrom(body, off, |body| - 1) == FirstUser(attrs)
  {
    FirstHeader(body, off, attrs);
    UserFirst(body, off, attrs[0].value);
  }

  /** The walk at a first attribute of any other type moves to the next
      one, and so does the reference reading. */
  lemma {:induction false} ScanFirstOther(body: seq<byte>, off: nat, attrs: seq<Attribute>) returns (next: nat)
    requires Encodable(attrs) && attrs != [] && off <= |body| && body[off..] == AttributesBytes(attrs)
    requires attrs[0].attrType != StunAttribUser
    ensures next <= |body| && Encodable(attrs[1..]) && body[next..] == AttributesBytes(attrs[1..])
    ensures WalkFrom(body, off, |body| - 1) == WalkFrom(body, next, |body| - 1)
    ensures FirstUser(attrs) == FirstUser(attrs[1..])
  {
    next := off + |AttributeBytes(attrs[0])|;
    SplitFirst(body, off, attrs);
    FirstHeader(body, off, attrs);
    OtherStep(body, off, |body| - 1, next);
  }

  /** The walk at a USERNAME header that lies before maxOffset and whose
      value of l bytes fits with its padding: it ends at that value, or on
      a malformed list where l is too short to hold two names. */
  lemma {:induction false} UserStep(body: seq<byte>, off: nat, maxOffset: int, l: nat)
    requires off < maxOffset && off + 4 + l + Pad4(l) <= |body|
    requires GetBE16(body, off) == StunAttribUser && GetBE16(body, off + 2) as int == l
    ensures WalkFrom(body, off, maxOffset) == if l >= 9 then UserAt(off + 4, off + 4 + l) else Malformed
  {
  }

  lemma {:induction false} OtherStep(body: seq<byte>, off: nat, maxOffset: int, next: int)
    requires off < maxOffset && off + 4 <= |body| && GetBE16(body, off) != StunAttribUser
    requires next == off + 4 + GetBE16(body, off + 2) as int + Pad4(GetBE16(body, off + 2) as int)
    ensures WalkFrom(body, off, maxOffset) == WalkFrom(body, next, maxOffset)
  {
    WalkStep(body, off, maxOffset);
  }

  /** The fields of an encoded attribute. */
  lemma AttributeLayout(a: Attribute)
    requires |a.value| < TWO16
    ensures var ab := AttributeBytes(a);
      ab[..2] == BE16(a.attrType) && ab[2..4] == BE16(|a.value|) && ab[4..4 + |a.value|] == a.value
  {
    var l := |a.value|;
    var h := BE16(a.attrType) + BE16(l);
    assert AttributeBytes(a) == h + (a.value + Zeros(Pad4(l)));
    assert h[..2] == BE16(a.attrType) && h[2..] == BE16(l);
  }

  /** A slice of bytes stored at off is the same slice of the stored image. */
  lemma SliceAt(body: seq<byte>, off: nat, img: seq<byte>, i: nat, j: nat)
    requires off + |img| <= |body| && body[off..off + |img|] == img && i <= j <= |img|
    ensures body[off + i..off + j] == img[i..j]
  {
    forall k | 0 <= k < j - i ensures body[off + i..off + j][k] == img[i..j][k] {
      assert body[off + i + k] == body[off..off + |img|][i + k];
    }
  }

  /** Reading back an attribute's header and value where it is stored. */
  lemma {:induction false} AttributeFields(body: seq<byte>, off: nat, a: Attribute)
    requires |a.value| < TWO16 && off + |AttributeBytes(a)| <= |body|
    requires body[off..off + |AttributeBytes(a)|] == AttributeBytes(a)
    ensures GetBE16(body, off) == a.attrType && GetBE16(body, off + 2) == |a.value|
    ensures body[off + 4..off + 4 + |a.value|] == a.value
  {
    var ab := AttributeBytes(a);
    var l := |a.value|;
    AttributeLayout(a);
    SliceAt(body, off, ab, 0, 2);
    SliceAt(body, off, ab, 2, 4);
    SliceAt(body, off, ab, 4, 4 + l);
    GetBE16At(body, off, a.attrType);
    GetBE16At(body, off + 2, l);
  }

  /** A Binding request passes the header checks, and the walk over it
      reaches the verdict of the reference reading of its attributes. */
  lemma BindingRequestScan(cookie: u32, tid: seq<byte>, attrs: seq<Attribute>)
    requires |tid| == StunTransactionIdLength && Encodable(attrs)
    requires 4 <= |AttributesBytes(attrs)| < TWO16
    ensures var r := BindingRequest(cookie, tid, attrs);
      HeaderOk(r) && StunScan(r) == FirstUser(attrs) &&
      GetBE32(r, 4) == cookie && r[8..20] == tid
  {
    var r := BindingRequest(cookie, tid, attrs);
    var n := |AttributesBytes(attrs)|;
    assert r[0..2] == BE16(StunBindingRequest);
    assert r[2..4] == BE16(n);
    assert r[4..8] == BE32(cookie);
    GetBE16At(r, 0, StunBindingRequest);
    GetBE16At(r, 2, n);
    GetBE32At(r, 4, cookie);
    var body := r[StunHeaderLength..];
    assert body == AttributesBytes(attrs);
    assert body[0..] == body;
    ScanAttributes(body, 0, attrs);
  }

  /** A request whose USERNAME is server:remote, with a server fragment of
      4 to 128 bytes free of colons, a remote fragment of at most 128 bytes
      and 9 bytes in all, yields the two fragments. */
  lemma UserNameRoundTrip(cookie: u32, tid: seq<byte>, server: seq<byte>, remote: seq<byte>)
    requires |tid| == StunTransactionIdLength
    requires 4 <= |server| <= MaxStunIdentifierLength && Colon !in server
    requires |remote| <= MaxStunIdentifierLength && |server| + 1 + |remote| >= 9
    ensures var attrs := [Attribute(StunAttribUser, server + [Colon] + remote)];
      Encodable(attrs) && |AttributesBytes(attrs)| < TWO16 &&
      Accepts(BindingRequest(cookie, tid, attrs)) &&
      StunScan(BindingRequest(cookie, tid, attrs)) == User(server, remote)
  {
    var u := server + [Colon] + remote;
    var attrs := [Attribute(StunAttribUser, u)];
    assert AttributesBytes(attrs) == AttributeBytes(attrs[0]) + AttributesBytes([]) by {
      assert attrs[1..] == [];
    }
    assert u[..|server|] == server && u[|server|] == Colon;
    FirstFoundAt(u, Colon, |server|);
    BindingRequestScan(cookie, tid, attrs);
  }

  /** A Binding request with only a SOFTWARE attribute (type 0x8022) passes
      ParseStun without a USERNAME, so the user names keep whatever the
      caller's packet held. */
  lemma NoUserAccepted(cookie: u32, tid: seq<byte>)
    requires |tid| == StunTransactionIdLength
    ensures var attrs := [Attribute(0x8022, [])];
      Encodable(attrs) && |AttributesBytes(attrs)| == 4 &&
      Accepts(BindingRequest(cookie, tid, attrs)) &&
      StunScan(BindingRequest(cookie, tid, attrs)) == NoUser
  {
    var attrs := [Attribute(0x8022, [])];
    assert AttributesBytes(attrs) == AttributeBytes(attrs[0]) + AttributesBytes([]) by {
      assert attrs[1..] == [];
    }
    BindingRequestScan(cookie, tid, attrs);
  }

  // ---- writing the Binding success response ----

  /** A 20-byte HMAC-SHA1 digest. */
  type Digest = s: seq<byte> | |s| == 20 witness [0, 0, 0, 0, 0, 0, 0, 0, 0, 0, 0, 0, 0, 0, 0, 0, 0, 0, 0, 0]

  /** The first eight header bytes of a success response: its type, a
      message length, and the magic cookie. */
  function HeaderStart(messageLength: u16): (r: seq<byte>)
    ensures |r| == 8
  {
    BE16(StunSuccessResponse) + BE16(messageLength) + BE32(StunCookie)
  }

  /** An attribute header: type and value length. */
  function AttributeHead(attrType: u16, length: u16): (r: seq<byte>)
    ensures |r| == 4
  {
    BE16(attrType) + BE16(length)
  }

  /** The XOR-MAPPED-ADDRESS value: a reserved zero byte, the family, and
      the port and the address stored in host order, as the caller already
      swapped them. */
  function MappedValue(a: StunAddress): (r: seq<byte>)
    ensures |r| == 8
  {
    [0, a.family] + HostBytes(2, a.port) + HostBytes(4, a.ipv4)
  }

  /** The header and the XOR-MAPPED-ADDRESS attribute, with the given
      message length. */
  function ResponseHead(tid: seq<byte>, a: StunAddress, messageLength: u16): (r: seq<byte>)
    requires |tid| == StunTransactionIdLength
    ensures |r| == 32
  {
    HeaderStart(messageLength) + tid + AttributeHead(StunAttribXorMappedAddress, 8) + MappedValue(a)
  }

  function Xor32(a: u32, b: u32): u32 {
    ((a as bv32) ^ (b as bv32)) as int
  }

  /** The 56 bytes the FINGERPRINT covers: the header with the final
      message length (44), XOR-MAPPED-ADDRESS, and a MESSAGE-INTEGRITY
      computed while the message length covered the attributes up to it
      (36). */
  function Signed(tid: seq<byte>, a: StunAddress, password: seq<byte>,
                  sha1: (seq<byte>, seq<byte>) -> Digest): (r: seq<byte>)
    requires |tid| == StunTransactionIdLength
    ensures |r| == 56
  {
    ResponseHead(tid, a, 12 + 24 + 8) + AttributeHead(StunAttribMessageIntegrity, 20) +
    sha1(ResponseHead(tid, a, 12 + 24), password)
  }

  /** The 64-byte success response: the signed part and a FINGERPRINT over
      it. */
  function StunResponse(tid: seq<byte>, a: StunAddress, password: seq<byte>,
                        sha1: (seq<byte>, seq<byte>) -> Digest, crc32: seq<byte> -> u32)
      : (r: seq<byte>)
    requires |tid| == StunTransactionIdLength
    ensures |r| == 64
  {
    var signed := Signed(tid, a, password, sha1);
    signed + AttributeHead(StunAttribFingerprint, 4) + BE32(Xor32(crc32(signed), FingerprintXor))
  }

  /** s with the bytes b stored at offset at. */
  function Splice(s: seq<byte>, at: nat, b: seq<byte>): (r: seq<byte>)
    requires at + |b| <= |s|
    ensures |r| == |s|
  {
    s[..at] + b + s[at + |b|..]
  }

  /** A store of piece just after acc, itself stored at offset at, leaves
      acc + piece stored there. */
  lemma Extended(s: seq<byte>, at: nat, acc: seq<byte>, piece: seq<byte>, prev: seq<byte>, cur: seq<byte>)
    requires at + |acc| + |piece| <= |s| && prev == Splice(s, at, acc)
    requires cur == Splice(prev, at + |acc|, piece)
    ensures cur == Splice(s, at, acc + piece)
  {
    assert prev[..at + |acc|] == s[..at] + acc;
    assert prev[at + |acc| + |piece|..] == s[at + |acc| + |piece|..];
  }

  /** The scalar stores, stated as splices. */
  method Put16(dest: array<byte>, at: nat, v: u16) returns (n: nat)
    requires at + 2 <= dest.Length
    modifies dest
    ensures n == 2 && dest[..] == Splice(old(dest[..]), at, BE16(v))
  {
    n := WriteScalarSwapped(dest, at, 2, v);
  }

  /** The type, message length and cookie stores at the start of
      SerializeStunPacket. */
  method WriteHeaderStart(dest: array<byte>, messageLength: u16) returns (offset: nat)
    requires dest.Length >= 8
    modifies dest
    ensures offset == 8 && dest[..] == Splice(old(dest[..]), 0, HeaderStart(messageLength))
  {
    ghost var s := dest[..];
    offset := Put16(dest, 0, StunSuccessResponse);
    assert dest[..] == Splice(s, 0, [] + BE16(StunSuccessResponse));
    ghost var prev := dest[..];
    var n := Put16(dest, offset, messageLength);
    Extended(s, 0, BE16(StunSuccessResponse), BE16(messageLength), prev, dest[..]);
    offset := offset + n;
    prev := dest[..];
    n := WriteScalarSwapped(dest, offset, 4, StunCookie);
    Extended(s, 0, BE16(StunSuccessResponse) + BE16(messageLength), BE32(StunCookie), prev, dest[..]);
    offset := offset + n;
  }

  /** An attribute header's two stores. */
  method WriteAttributeHead(dest: array<byte>, at: nat, attrType: u16, length: u16) returns (n: nat)
    requires at + 4 <= dest.Length
    modifies dest
    ensures n == 4 && dest[..] == Splice(old(dest[..]), at, AttributeHead(attrType, length))
  {
    ghost var s := dest[..];
    n := Put16(dest, at, attrType);
    assert dest[..] == Splice(s, at, [] + BE16(attrType));
    ghost var prev := dest[..];
    var m := Put16(dest, at + n, length);
    Extended(s, at, BE16(attrType), BE16(length), prev, dest[..]);
    n := n + m;
  }

  /** The byte-by-byte copy loops of SerializeStunPacket (transaction id
      and digest). */
  method CopyBytes(dest: array<byte>, at: nat, bytes: seq<byte>)
    requires at + |bytes| <= dest.Length
    modifies dest
    ensures dest[..] == Splice(old(dest[..]), at, bytes)
  {
    for i := 0 to |bytes|
      invariant forall k :: 0 <= k < i ==> dest[at + k] == bytes[k]
      invariant forall k :: 0 <= k < dest.Length && !(at <= k < at + i) ==> dest[k] == old(dest[k])
    {
      dest[i + at] := bytes[i];
    }
    ghost var r := Splice(old(dest[..]), at, bytes);
    forall k | 0 <= k < dest.Length ensures dest[k] == r[k] {
      if k < at {
        assert r[k] == old(dest[..])[k];
      } else if k < at + |bytes| {
        assert r[k] == bytes[k - at];
      } else {
        assert r[k] == old(dest[..])[k];
      }
    }
  }

  /** A store in host order, stated as a splice. */
  method PutHost(dest: array<byte>, at: nat, w: nat, v: nat) returns (n: nat)
    requires ScalarWidth(w) && v < Limit(w) && at + w <= dest.Length
    modifies dest
    ensures n == w && dest[..] == Splice(old(dest[..]), at, HostBytes(w, v))
  {
    n := WriteScalar(dest, at, w, v);
  }

  /** The four stores of the XOR-MAPPED-ADDRESS value. */
  method WriteMappedValue(dest: array<byte>, at: nat, a: StunAddress) returns (n: nat)
    requires at + 8 <= dest.Length
    modifies dest
    ensures n == 8 && dest[..] == Splice(old(dest[..]), at, MappedValue(a))
  {
    ghost var s := dest[..];
    n := PutHost(dest, at, 1, 0);
    assert HostBytes(1, 0) == [0];
    ghost var prev := dest[..];
    var m := PutHost(dest, at + 1, 1, a.family);
    assert HostBytes(1, a.family as nat) == [a.family];
    Extended(s, at, [0], [a.family], prev, dest[..]);
    assert [0] + [a.family] == [0, a.family];
    prev := dest[..];
    m := PutHost(dest, at + 2, 2, a.port);
    Extended(s, at, [0, a.family], HostBytes(2, a.port), prev, dest[..]);
    prev := dest[..];
    m := PutHost(dest, at + 4, 4, a.ipv4);
    Extended(s, at, [0, a.family] + HostBytes(2, a.port), HostBytes(4, a.ipv4), prev, dest[..]);
    n := 8;
  }

  /** The header and XOR-MAPPED-ADDRESS writes of SerializeStunPacket,
      with the given message length. */
  method WriteResponseHead(dest: array<byte>, tid: seq<byte>, a: StunAddress, messageLength: u16)
      returns (offset: nat)
    requires |tid| == StunTransactionIdLength && dest.Length >= 32
    modifies dest
    ensures offset == 32 && dest[..] == Splice(old(dest[..]), 0, ResponseHead(tid, a, messageLength))
  {
    ghost var s := dest[..];
    offset := WriteHeaderStart(dest, messageLength);
    ghost var prev := dest[..];
    CopyBytes(dest, offset, tid);
    Extended(s, 0, HeaderStart(messageLength), tid, prev, dest[..]);
    offset := offset + 12;
    prev := dest[..];
    var n := WriteAttributeHead(dest, offset, StunAttribXorMappedAddress, 8);
    Extended(s, 0, HeaderStart(messageLength) + tid, AttributeHead(StunAttribXorMappedAddress, 8),
             prev, dest[..]);
    offset := offset + n;
    prev := dest[..];
    n := WriteMappedValue(dest, offset, a);
    Extended(s, 0, HeaderStart(messageLength) + tid + AttributeHead(StunAttribXorMappedAddress, 8),
             MappedValue(a), prev, dest[..]);
    offset := offset + n;
  }

  /** The MESSAGE-INTEGRITY stores: its header, then the digest. */
  method WriteIntegrity(dest: array<byte>, at: nat, digest: Digest) returns (n: nat)
    requires at + 24 <= dest.Length
    modifies dest
    ensures n == 24
    ensures dest[..] == Splice(old(dest[..]), at, AttributeHead(StunAttribMessageIntegrity, 20) + digest)
  {
    ghost var s := dest[..];
    n := WriteAttributeHead(dest, at, StunAttribMessageIntegrity, 20);
    ghost var prev := dest[..];
    CopyBytes(dest, at + n, digest);
    Extended(s, at, AttributeHead(StunAttribMessageIntegrity, 20), digest, prev, dest[..]);
    n := n + 20;
  }

  /** SerializeStunPacket: the destination is cleared and the 64-byte
      success response is written at its start; its length is returned. */
  method SerializeStunPacket(packet: StunPacket, password: seq<byte>,
                             sha1: (seq<byte>, seq<byte>) -> Digest, crc32: seq<byte> -> u32,
                             dest: array<byte>) returns (offset: int)
    requires |packet.transactionId| == StunTransactionIdLength && dest.Length >= 64
    modifies dest
    ensures offset == 64
    ensures dest[..64] == StunResponse(packet.transactionId, packet.xorMappedAddress, password, sha1, crc32)
    ensures forall i :: 64 <= i < dest.Length ==> dest[i] == 0
  {
    var tid, a := packet.transactionId, packet.xorMappedAddress;
    forall i | 0 <= i < dest.Length {
      dest[i] := 0;
    }
    ghost var z := dest[..];
    var contentLength := 12 + 24;
    var contentLengthIntegrity := contentLength + 8;
    var contentLengthOffset := 2;
    offset := WriteResponseHead(dest, tid, a, contentLength);
    ghost var d1 := dest[..];
    SplicedPrefix(z, 0, ResponseHead(tid, a, contentLength));
    var digest := sha1(dest[..offset], password);
    var n := WriteIntegrity(dest, offset, digest);
    offset := offset + n;
    ghost var d2 := dest[..];
    n := Put16(dest, contentLengthOffset, contentLengthIntegrity);
    ghost var d3 := dest[..];
    SignedImage(d1, d2, d3, tid, a, password, sha1);
    var crc := Xor32(crc32(dest[..offset]), FingerprintXor);
    n := WriteAttributeHead(dest, offset, StunAttribFingerprint, 4);
    offset := offset + n;
    ghost var d35 := dest[..];
    n := WriteScalarSwapped(dest, offset, 4, crc);
    offset := offset + n;
    ResponseImage(z, d1, d2, d3, d35, dest[..], tid, a, password, sha1, crc32);
  }

  /** After a store at the start, the prefix is what was stored. */
  lemma SplicedPrefix(s: seq<byte>, at: nat, b: seq<byte>)
    requires at + |b| <= |s|
    ensures Splice(s, at, b)[at..at + |b|] == b && Splice(s, at, b)[..at] == s[..at]
    ensures Splice(s, at, b)[at + |b|..] == s[at + |b|..]
  {
  }

  /** The bytes the FINGERPRINT covers: the head with message length 36,
      the integrity attribute over it, then the length rewritten to 44. */
  lemma SignedImage(d1: seq<byte>, d2: seq<byte>, d3: seq<byte>, tid: seq<byte>,
                    a: StunAddress, password: seq<byte>, sha1: (seq<byte>, seq<byte>) -> Digest)
    requires |tid| == StunTransactionIdLength && |d1| >= 64
    requires d1[..32] == ResponseHead(tid, a, 36)
    requires d2 == Splice(d1, 32, AttributeHead(StunAttribMessageIntegrity, 20) + sha1(d1[..32], password))
    requires d3 == Splice(d2, 2, BE16(44))
    ensures d3[..56] == Signed(tid, a, password, sha1)
    ensures d3[56..] == d1[56..]
  {
    var mac := AttributeHead(StunAttribMessageIntegrity, 20);
    var digest := sha1(d1[..32], password);
    assert d2[..56] == d1[..32] + (mac + digest);
    HeadRelength(tid, a, 36, 44);
    assert d3[..56] == d2[..2] + BE16(44) + d2[4..56];
  }

  /** The whole response, and zeros after it. */
  lemma ResponseImage(z: seq<byte>, d1: seq<byte>, d2: seq<byte>, d3: seq<byte>, d35: seq<byte>,
                      d4: seq<byte>, tid: seq<byte>, a: StunAddress, password: seq<byte>,
                      sha1: (seq<byte>, seq<byte>) -> Digest, crc32: seq<byte> -> u32)
    requires |tid| == StunTransactionIdLength && |z| >= 64
    requires forall i :: 0 <= i < |z| ==> z[i] == 0
    requires d1 == Splice(z, 0, ResponseHead(tid, a, 36))
    requires |d3| == |z| && d3[56..] == d1[56..] && d3[..56] == Signed(tid, a, password, sha1)
    requires d35 == Splice(d3, 56, AttributeHead(StunAttribFingerprint, 4))
    requires d4 == Splice(d35, 60, NetBytes(4, Xor32(crc32(d3[..56]), FingerprintXor)))
    ensures d4[..64] == StunResponse(tid, a, password, sha1, crc32)
    ensures forall i :: 64 <= i < |d4| ==> d4[i] == 0
  {
    var fp := AttributeHead(StunAttribFingerprint, 4);
    var crc := BE32(Xor32(crc32(d3[..56]), FingerprintXor));
    assert d4[..64] == d35[..60] + crc;
    assert d35[..60] == d3[..56] + fp;
    forall i | 64 <= i < |d4| ensures d4[i] == 0 {
      assert d4[i] == d35[i] == d3[i] == d1[i] == z[i];
    }
  }

  /** The header's fields. */
  lemma HeadLayout(tid: seq<byte>, a: StunAddress, messageLength: u16)
    requires |tid| == StunTransactionIdLength
    ensures var h := ResponseHead(tid, a, messageLength);
      GetBE16(h, 0) == StunSuccessResponse && GetBE16(h, 2) == messageLength &&
      GetBE32(h, 4) == StunCookie && h[8..20] == tid &&
      GetBE16(h, 20) == StunAttribXorMappedAddress && GetBE16(h, 22) == 8 &&
      h[24] == 0 && h[25] == a.family
  {
    var h := ResponseHead(tid, a, messageLength);
    assert h[0..2] == BE16(StunSuccessResponse);
    assert h[2..4] == BE16(messageLength);
    assert h[4..8] == BE32(StunCookie);
    assert h[20..22] == BE16(StunAttribXorMappedAddress);
    assert h[22..24] == BE16(8);
    GetBE16At(h, 0, StunSuccessResponse);
    GetBE16At(h, 2, messageLength);
    GetBE32At(h, 4, StunCookie);
    GetBE16At(h, 20, StunAttribXorMappedAddress);
    GetBE16At(h, 22, 8);
  }

  /** Two heads differ only in their message length. */
  lemma HeadRelength(tid: seq<byte>, a: StunAddress, m: u16, n: u16)
    requires |tid| == StunTransactionIdLength
    ensures ResponseHead(tid, a, n) ==
            ResponseHead(tid, a, m)[..2] + BE16(n) + ResponseHead(tid, a, m)[4..]
  {
  }

  /** The response's layout (section 15 of RFC 5389): a success response
      with the magic cookie and the request's transaction id, whose message
      length counts every byte after the 20-byte header; an 8-byte
      XOR-MAPPED-ADDRESS value; a MESSAGE-INTEGRITY over the message up to
      it, with the message length then covering the attributes through it;
      and a FINGERPRINT over everything before it. */
  lemma ResponseLayout(tid: seq<byte>, a: StunAddress, password: seq<byte>,
                       sha1: (seq<byte>, seq<byte>) -> Digest, crc32: seq<byte> -> u32)
    requires |tid| == StunTransactionIdLength
    ensures var r := StunResponse(tid, a, password, sha1, crc32);
      GetBE16(r, 0) == StunSuccessResponse && GetBE16(r, 2) == |r| - StunHeaderLength &&
      GetBE32(r, 4) == StunCookie && r[8..20] == tid &&
      GetBE16(r, 20) == StunAttribXorMappedAddress && GetBE16(r, 22) == 8 &&
      r[24] == 0 && r[25] == a.family &&
      GetBE16(r, 32) == StunAttribMessageIntegrity && GetBE16(r, 34) == 20 &&
      r[36..56] == sha1(r[..2] + BE16(56 - StunHeaderLength) + r[4..32], password) &&
      GetBE16(r, 56) == StunAttribFingerprint && GetBE16(r, 58) == 4 &&
      GetBE32(r, 60) == Xor32(crc32(r[..56]), FingerprintXor)
  {
    var r := StunResponse(tid, a, password, sha1, crc32);
    var signed := Signed(tid, a, password, sha1);
    var h := ResponseHead(tid, a, 44);
    var fp := AttributeHead(StunAttribFingerprint, 4) + BE32(Xor32(crc32(signed), FingerprintXor));
    assert r == signed + fp;
    assert r[..56] == signed;
    var mac := AttributeHead(StunAttribMessageIntegrity, 20);
    var digest := sha1(ResponseHead(tid, a, 36), password);
    assert signed == h + mac + digest;
    assert r[..32] == h;
    HeadLayout(tid, a, 44);
    HeadRelength(tid, a, 44, 36);
    assert r[..2] + BE16(36) + r[4..32] == ResponseHead(tid, a, 36) by {
      assert r[..2] == h[..2] && r[4..32] == h[4..];
    }
    assert r[36..56] == digest;
    assert r[32..34] == BE16(StunAttribMessageIntegrity);
    assert r[34..36] == BE16(20);
    assert r[56..58] == BE16(StunAttribFingerprint);
    assert r[58..60] == BE16(4);
    assert r[60..64] == BE32(Xor32(crc32(signed), FingerprintXor));
    GetBE16At(r, 32, StunAttribMessageIntegrity);
    GetBE16At(r, 34, 20);
    GetBE16At(r, 56, StunAttribFingerprint);
    GetBE16At(r, 58, 4);
    GetBE32At(r, 60, Xor32(crc32(signed), FingerprintXor));
    assert GetBE16(r, 0) == GetBE16(h, 0) && GetBE16(r, 2) == GetBE16(h, 2);
    assert GetBE32(r, 4) == GetBE32(h, 4) && GetBE16(r, 20) == GetBE16(h, 20);
    assert GetBE16(r, 22) == GetBE16(h, 22);
  }
}
