/** The UDP side of the server stream: a flushed buffer is cut into pieces
    of at most udpSize bytes, each sent as one datagram behind a 20-byte
    header (message id, piece index, piece count, hash, frame number).
    The hash function and the host's sending are parameters: `hash` stands
    for XXH64 with seed 0, and `accepted` is the number of datagrams the
    host takes before the first one it refuses. */
module Udp {
  import opened Bytes

  /** The udpSize parameter: 1296 by default, 500 to 1400 allowed. */
  const DefaultUdpSize := 1296
  const MinUdpSize := 500
  const MaxUdpSize := 1400

  predicate ValidUdpSize(n: int)
  {
    MinUdpSize <= n <= MaxUdpSize
  }

  /** Five 32-bit header fields. */
  const HeaderSize := 20

  /** UDPSTREAM_BUFSIZE. */
  const BufSize := 1024 * 1024

  /** The code's count of pieces: len / max, plus one for a remainder. */
  function PieceCount(len: nat, max: nat): nat
    requires max > 0
  {
    len / max + (if len % max != 0 then 1 else 0)
  }

  /** The payloads in order: max bytes at a time while more than max
      remain, then what is left. */
  function Chunks(data: seq<byte>, max: nat): (r: seq<seq<byte>>)
    requires max > 0
    ensures |r| <= |data|
    decreases |data|
  {
    if data == [] then []
    else
      var n := if |data| > max then max else |data|;
      [data[..n]] + Chunks(data[n..], max)
  }

  function Concat(ss: seq<seq<byte>>): seq<byte>
  {
    if ss == [] then [] else ss[0] + Concat(ss[1..])
  }

  /** One datagram: the header fields in host byte order (little-endian),
      then the payload. */
  function Packet(id: u32, i: u32, pieces: u32, hash: u32, frame: u32, payload: seq<byte>): (r: seq<byte>)
    ensures |r| == HeaderSize + |payload|
    ensures r[HeaderSize..] == payload
  {
    LE32(id) + LE32(i) + LE32(pieces) + LE32(hash) + LE32(frame) + payload
  }

  /** Every datagram of one message, in the order of the pieces. */
  function Packets(data: seq<byte>, id: u32, frame: u32, max: nat, hash: seq<byte> -> u64): (r: seq<seq<byte>>)
    requires max > 0 && |data| < TWO32
    ensures |r| == |Chunks(data, max)|
  {
    var cs := Chunks(data, max);
    seq(|cs|, i requires 0 <= i < |cs| => Packet(id, i, |cs|, ToU32(hash(cs[i])), frame, cs[i]))
  }

  /** What udpsend did: its status, the message id after it, and the
      datagrams it handed to the host. */
  datatype Sent = Sent(status: byte, id: u32, packets: seq<seq<byte>>)

  /** The outcome of udpsend when the host takes `accepted` datagrams and
      refuses the next: every datagram and a new id, or the datagrams up to
      the refused one, status 1 and the old id. */
  function SendOutcome(data: seq<byte>, id: u32, frame: u32, max: nat, hash: seq<byte> -> u64, accepted: nat): (r: Sent)
    requires max > 0 && |data| < TWO32
    ensures r.status == 0 || r.status == 1
    ensures |r.packets| <= |Packets(data, id, frame, max, hash)|
    ensures r.packets == Packets(data, id, frame, max, hash)[..|r.packets|]
  {
    var ps := Packets(data, id, frame, max, hash);
    if accepted >= |ps| then Sent(0, ToU32(id + 1), ps) else Sent(1, id, ps[..accepted + 1])
  }

  /** udpsend(client, data, len, &id, &frame). */
  method UdpSend(data: seq<byte>, id: u32, frame: u32, max: nat, hash: seq<byte> -> u64, accepted: nat)
    returns (r: byte, newId: u32, sent: seq<seq<byte>>)
    requires ValidUdpSize(max) && |data| < TWO32
    ensures Sent(r, newId, sent) == SendOutcome(data, id, frame, max, hash, accepted)
  {
    var pieces := PieceCount(|data|, max);
    ChunkCount(data, max);
    ghost var cs := Chunks(data, max);
    ghost var all := Packets(data, id, frame, max, hash);
    var rest := data;
    sent := [];
    var i := 0;
    while i < pieces
      invariant 0 <= i <= pieces == |cs| <= |data|
      invariant i <= accepted
      invariant Chunks(rest, max) == cs[i..]
      invariant sent == all[..i]
    {
      var curlen := if |rest| > max then max else |rest|;
      NextPiece(cs, max, rest, i);
      var packet := Packet(id, i, pieces, ToU32(hash(rest[..curlen])), frame, rest[..curlen]);
      rest := rest[curlen..];
      assert all[..i + 1] == all[..i] + [packet];
      sent := sent + [packet];
      if i >= accepted {
        return 1, id, sent;
      }
      i := i + 1;
    }
    assert sent == all;
    return 0, ToU32(id + 1), sent;
  }

  /** Piece i of the data is the head of what the loop has left. */
  lemma NextPiece(cs: seq<seq<byte>>, max: nat, rest: seq<byte>, i: nat)
    requires max > 0 && i < |cs| && Chunks(rest, max) == cs[i..]
    ensures var n := if |rest| > max then max else |rest|;
      n <= |rest| && cs[i] == rest[..n] && Chunks(rest[n..], max) == cs[i + 1..]
  {
    var n := if |rest| > max then max else |rest|;
    assert rest != [];
    assert Chunks(rest, max) == [rest[..n]] + Chunks(rest[n..], max);
  }

  /** Taking max off a number of at least max lowers the quotient by one
      and keeps the remainder. */
  lemma DivStep(len: nat, max: nat)
    requires 0 < max <= len
    ensures len / max == (len - max) / max + 1 && len % max == (len - max) % max
  {
    var q, m := (len - max) / max, (len - max) % max;
    assert len - max == q * max + m;
    assert len == (q + 1) * max + m;
    DivModUnique(q + 1, max, m);
  }

  /** One piece of max bytes taken off: one piece fewer. */
  lemma PieceCountStep(len: nat, max: nat)
    requires max > 0
    ensures len > max ==> PieceCount(len, max) == PieceCount(len - max, max) + 1
    ensures 0 < len <= max ==> PieceCount(len, max) == 1
  {
    if len > max {
      DivStep(len, max);
    } else if len == max {
      DivModUnique(1, max, 0);
    } else if len > 0 {
      DivModUnique(0, max, len);
    }
  }

  /** The code's count is the number of pieces: ceil(len / max). */
  lemma {:induction false} ChunkCount(data: seq<byte>, max: nat)
    requires max > 0
    ensures |Chunks(data, max)| == PieceCount(|data|, max)
    decreases |data|
  {
    PieceCountStep(|data|, max);
    if data != [] {
      var n := if |data| > max then max else |data|;
      ChunkCount(data[n..], max);
      assert Chunks(data, max) == [data[..n]] + Chunks(data[n..], max);
    }
  }

  /** The pieces, put back together in order, are the data. */
  lemma {:induction false} ChunksConcat(data: seq<byte>, max: nat)
    requires max > 0
    ensures Concat(Chunks(data, max)) == data
    decreases |data|
  {
    if data != [] {
      var n := if |data| > max then max else |data|;
      ChunksConcat(data[n..], max);
      assert Chunks(data, max) == [data[..n]] + Chunks(data[n..], max);
      assert data == data[..n] + data[n..];
    }
  }

  /** The payloads of a run of datagrams, in order. */
  function Payloads(ps: seq<seq<byte>>): seq<byte>
    requires forall k :: 0 <= k < |ps| ==> |ps[k]| >= HeaderSize
  {
    if ps == [] then [] else ps[0][HeaderSize..] + Payloads(ps[1..])
  }

  lemma {:induction false} PayloadsOf(ps: seq<seq<byte>>, cs: seq<seq<byte>>)
    requires |ps| == |cs|
    requires forall k :: 0 <= k < |ps| ==> |ps[k]| >= HeaderSize && ps[k][HeaderSize..] == cs[k]
    ensures Payloads(ps) == Concat(cs)
  {
    if ps != [] {
      PayloadsOf(ps[1..], cs[1..]);
    }
  }

  /** A receiver that takes the payloads of all datagrams of a message in
      piece order gets the message back. */
  lemma Reassemble(data: seq<byte>, id: u32, frame: u32, max: nat, hash: seq<byte> -> u64)
    requires max > 0 && |data| < TWO32
    ensures var ps := Packets(data, id, frame, max, hash);
      (forall k :: 0 <= k < |ps| ==> |ps[k]| >= HeaderSize) && Payloads(ps) == data
  {
    var ps := Packets(data, id, frame, max, hash);
    var cs := Chunks(data, max);
    assert forall k :: 0 <= k < |ps| ==> ps[k][HeaderSize..] == cs[k];
    PayloadsOf(ps, cs);
    ChunksConcat(data, max);
  }

  /** Every piece holds 1 to max bytes, and all but the last exactly max. */
  lemma {:induction false} ChunkSizes(data: seq<byte>, max: nat)
    requires max > 0
    ensures var cs := Chunks(data, max);
      (forall k :: 0 <= k < |cs| ==> 0 < |cs[k]| <= max) &&
      (forall k :: 0 <= k < |cs| - 1 ==> |cs[k]| == max)
    decreases |data|
  {
    if data != [] {
      var n := if |data| > max then max else |data|;
      ChunkSizes(data[n..], max);
      var cs := Chunks(data, max);
      assert cs == [data[..n]] + Chunks(data[n..], max);
      if |data| <= max {
        assert data[n..] == [];
      }
    }
  }

  /** The header of datagram k reads back as the message id, k, the count
      of pieces, the 32-bit hash of its payload and the frame number. */
  lemma PacketHeader(data: seq<byte>, id: u32, frame: u32, max: nat, hash: seq<byte> -> u64, k: nat)
    requires max > 0 && |data| < TWO32
    requires k < |Packets(data, id, frame, max, hash)|
    ensures var p := Packets(data, id, frame, max, hash)[k];
      |p| >= HeaderSize &&
      GetLE32(p, 0) == id && GetLE32(p, 4) == k && GetLE32(p, 8) == PieceCount(|data|, max) &&
      GetLE32(p, 12) == ToU32(hash(p[HeaderSize..])) && GetLE32(p, 16) == frame
  {
    var cs := Chunks(data, max);
    var p := Packets(data, id, frame, max, hash)[k];
    ChunkCount(data, max);
    var h := ToU32(hash(cs[k]));
    assert p == LE32(id) + LE32(k) + LE32(|cs|) + LE32(h) + LE32(frame) + cs[k];
    GetLE32At(p, 0, id);
    GetLE32At(p, 4, k);
    GetLE32At(p, 8, |cs|);
    GetLE32At(p, 12, h);
    GetLE32At(p, 16, frame);
  }

  /** Datagram k carries at most max payload bytes, exactly max unless it
      is the last, so it fits the 1420-byte send buffer. */
  lemma PacketSize(data: seq<byte>, id: u32, frame: u32, max: nat, hash: seq<byte> -> u64, k: nat)
    requires ValidUdpSize(max) && |data| < TWO32
    requires k < |Packets(data, id, frame, max, hash)|
    ensures var p := Packets(data, id, frame, max, hash)[k];
      HeaderSize < |p| <= HeaderSize + max <= MaxUdpSize + HeaderSize &&
      (k + 1 < PieceCount(|data|, max) ==> |p| == HeaderSize + max)
  {
    ChunkCount(data, max);
    ChunkSizes(data, max);
  }

  /** A send that succeeds hands over every piece and advances the id by
      one (modulo 2^32); one that fails stops at the refused piece and
      leaves the id alone. */
  lemma SendIds(data: seq<byte>, id: u32, frame: u32, max: nat, hash: seq<byte> -> u64, accepted: nat)
    requires max > 0 && |data| < TWO32
    ensures var o := SendOutcome(data, id, frame, max, hash, accepted);
      (o.status == 0 <==> accepted >= PieceCount(|data|, max)) &&
      (o.status == 0 ==> o.id == (id + 1) % TWO32 && |o.packets| == PieceCount(|data|, max)) &&
      (o.status == 1 ==> o.id == id && |o.packets| == accepted + 1)
  {
    ChunkCount(data, max);
  }

  /** An empty buffer sends nothing but still takes a message id. */
  lemma EmptySend(id: u32, frame: u32, max: nat, hash: seq<byte> -> u64, accepted: nat)
    requires max > 0
    ensures SendOutcome([], id, frame, max, hash, accepted) == Sent(0, ToU32(id + 1), [])
  {
  }

  /** UdpStream: the buffered bytes (data up to ptr), the client, the total
      length, the message id, the failure flag and the frame number. The
      datagrams handed to the host are kept in `sent`. */
  class UdpStream {
    var buffered: seq<byte>
    var hasClient: bool
    var totalLen: u64
    var id: u32
    var failed: bool
    var frame: u32
    var sent: seq<seq<byte>>

    constructor ()
      ensures buffered == [] && !hasClient && totalLen == 0 && id == 0 && !failed && frame == 0 && sent == []
    {
      buffered := [];
      hasClient := false;
      totalLen := 0;
      id := 0;
      failed := false;
      frame := 0;
      sent := [];
    }

    method SetClient(present: bool)
      modifies this
      ensures hasClient == present
      ensures buffered == old(buffered) && totalLen == old(totalLen) && id == old(id)
      ensures failed == old(failed) && frame == old(frame) && sent == old(sent)
    {
      hasClient := present;
    }

    method SetFrameNumber(n: u32)
      modifies this
      ensures frame == n
      ensures buffered == old(buffered) && hasClient == old(hasClient) && totalLen == old(totalLen)
      ensures id == old(id) && failed == old(failed) && sent == old(sent)
    {
      frame := n;
    }

    /** length(): every byte ever flushed, in a size_t. */
    function Length(): u64
      reads this
    {
      totalLen
    }

    function IsFailed(): bool
      reads this
    {
      failed
    }

    method ClearFailed()
      modifies this
      ensures !failed
      ensures buffered == old(buffered) && hasClient == old(hasClient) && totalLen == old(totalLen)
      ensures id == old(id) && frame == old(frame) && sent == old(sent)
    {
      failed := false;
    }

    /** flush(): count the buffered bytes, send them if there is a client
        (a failed send sets the flag, which stays set), and empty the
        buffer in every case. */
    method Flush(max: nat, hash: seq<byte> -> u64, accepted: nat)
      requires ValidUdpSize(max) && |buffered| <= BufSize
      modifies this
      ensures buffered == []
      ensures totalLen == ToU64(old(totalLen) + |old(buffered)|)
      ensures hasClient == old(hasClient) && frame == old(frame)
      ensures old(hasClient) ==>
        var o := SendOutcome(old(buffered), old(id), frame, max, hash, accepted);
        id == o.id && sent == old(sent) + o.packets && failed == (old(failed) || o.status == 1)
      ensures !old(hasClient) ==> id == old(id) && sent == old(sent) && failed == old(failed)
    {
      var len := |buffered|;
      totalLen := ToU64(totalLen + len);
      if hasClient {
        var r, newId, packets := UdpSend(buffered, id, frame, max, hash, accepted);
        id := newId;
        sent := sent + packets;
        if r != 0 {
          failed := true;
        }
      }
      buffered := [];
    }
  }
}
