/** WebSocket framing of the server (section 5.2 of RFC 6455): encode_hybi
    writes one unmasked frame for the client, and decode_hybi walks the
    frames the client sent in a receive buffer, unmasking each data payload
    in place. Base64, used only by text frames, is a parameter. */
module WsHybi {
  import opened Wrappers
  import opened Bytes

  const OpText := 1
  const OpBinary := 2
  const OpClose := 8

  function Pow2(n: nat): (r: nat)
    ensures r > 0
  {
    if n == 0 then 1 else 2 * Pow2(n - 1)
  }

  /** The exclusive or of the low n bits of a and b, bit by bit from the
      lowest. */
  function XorN(a: nat, b: nat, n: nat): (r: nat)
    ensures r < Pow2(n)
  {
    if n == 0 then 0 else (a + b) % 2 + 2 * XorN(a / 2, b / 2, n - 1)
  }

  /** The byte a ^ b. */
  function Xor8(a: byte, b: byte): byte
  {
    assert Pow2(8) == 256;
    XorN(a, b, 8)
  }

  /** XOR with the same value twice gives back the first operand. */
  lemma {:induction false} XorNTwice(a: nat, b: nat, n: nat)
    requires a < Pow2(n)
    ensures XorN(XorN(a, b, n), b, n) == a
  {
    if n > 0 {
      var r, h := (a + b) % 2, XorN(a / 2, b / 2, n - 1);
      var x := r + 2 * h;
      DivModUnique(h, 2, r);
      var q := (a + b) / 2;
      assert x + b == a + 2 * (b - q + h);
      DivModUnique(a / 2 + b - q + h, 2, a % 2);
      XorNTwice(a / 2, b / 2, n - 1);
    }
  }

  /** The conversion of a wider integer to a 32-bit int. */
  function ToI32(x: int): (r: i32)
    ensures 0 <= x < 0x8000_0000 ==> r == x
  {
    var v := x % TWO32;
    if v >= 0x8000_0000 then v - TWO32 else v
  }

  /** The payload d under the four-byte masking key m: byte i is XORed with
      key byte i mod 4. */
  function Masked(d: seq<byte>, m: seq<byte>): (r: seq<byte>)
    requires |m| == 4
    ensures |r| == |d|
  {
    seq(|d|, i requires 0 <= i < |d| => Xor8(d[i], m[i % 4]))
  }

  /** Masking is its own inverse: unmasking a masked payload with the same
      key gives the payload back. */
  lemma MaskTwice(d: seq<byte>, m: seq<byte>)
    requires |m| == 4
    ensures Masked(Masked(d, m), m) == d
  {
    assert Pow2(8) == 256;
    forall i | 0 <= i < |d|
      ensures Masked(Masked(d, m), m)[i] == d[i]
    {
      XorNTwice(d[i], m[i % 4], 8);
    }
  }

  // ---- decode_hybi ----

  /** The buffer after the n payload bytes at p are unmasked in place with
      the key in the four bytes before them. */
  function Unmask(s: seq<byte>, p: nat, n: nat): (r: seq<byte>)
    requires 4 <= p && p + n <= |s|
    ensures |r| == |s|
  {
    s[..p] + Masked(s[p..p + n], s[p - 4..p]) + s[p + n..]
  }

  /** A header byte the code reads: bytes past the end of the buffer (read
      when a truncated header says 126) count as 0, which does not change
      the outcome since such a frame is incomplete either way. */
  function At(s: seq<byte>, i: nat): byte
  {
    if i < |s| then s[i] else 0
  }

  /** The header length of the frame at f: 2, or 4 with a 16-bit length. */
  function HeaderLen(s: seq<byte>, f: nat): nat
    requires f + 2 <= |s|
  {
    if s[f + 1] % 128 < 126 then 2 else 4
  }

  /** The payload length of the frame at f: the 7-bit code, or the 16-bit
      big-endian length after it when the code is 126. */
  function PayloadLen(s: seq<byte>, f: nat): nat
    requires f + 2 <= |s|
  {
    var code := s[f + 1] % 128;
    if code < 126 then code else At(s, f + 2) as int * 256 + At(s, f + 3)
  }

  /** Where the frame after the one at f begins. */
  function NextFrame(s: seq<byte>, f: nat): (r: nat)
    requires f + 2 <= |s|
    ensures r > f
  {
    f + HeaderLen(s, f) + (if s[f + 1] >= 128 then 4 else 0) + PayloadLen(s, f)
  }

  /** The frame at f is skipped: it has not fully arrived, is not a data
      frame, or is empty. */
  predicate Skipped(s: seq<byte>, f: nat)
    requires f + 2 <= |s|
  {
    NextFrame(s, f) > |s| || (s[f] % 16 != OpText && s[f] % 16 != OpBinary) || PayloadLen(s, f) == 0
  }

  /** What decode_hybi leaves: whether it succeeded (it returns the number
      of decoded bytes) or returned a negative value, the decoded bytes, the
      last opcode read (*opcode), the bytes left over (*left) and the
      receive buffer with the unmasked payloads. */
  datatype Run = Run(ok: bool, out: seq<byte>, opcode: int, left: nat, buf: seq<byte>)

  /** The frame loop of decode_hybi from the frame at f on, with rem the
      remaining count of the previous frame, out the bytes decoded so far
      and op the last opcode read. A frame past the end or a header cut
      short stops the loop; a close frame stops it; a 64-bit length fails;
      an incomplete, non-data or empty frame is skipped; a data frame
      without a mask fails; otherwise its payload is unmasked in place and
      appended (a text payload through the base64 decoder pton). */
  function Frames(s: seq<byte>, f: nat, rem: nat, out: seq<byte>, op: int,
                  pton: seq<byte> -> Option<seq<byte>>): (r: Run)
    ensures |r.buf| == |s|
    decreases if f <= |s| then |s| - f + 1 else 0
  {
    if f > |s| then Run(true, out, op, rem, s)
    else if |s| - f < 2 then Run(true, out, op, |s| - f, s)
    else
      var opcode := s[f] % 16;
      if opcode == OpClose then Run(true, out, opcode, |s| - f, s)
      else if s[f + 1] % 128 == 127 then Run(false, out, opcode, |s|, s)
      else if Skipped(s, f) then Frames(s, NextFrame(s, f), |s| - f, out, opcode, pton)
      else if s[f + 1] < 128 then Run(false, out, opcode, |s|, s)
      else
        var p := f + HeaderLen(s, f) + 4;
        var u := Unmask(s, p, PayloadLen(s, f));
        var data := u[p..p + PayloadLen(s, f)];
        if opcode == OpText then
          match pton(data)
          case None => Run(false, out, opcode, |s|, u)
          case Some(d) => Frames(u, NextFrame(s, f), |s| - f, out + d, opcode, pton)
        else Frames(u, NextFrame(s, f), |s| - f, out + data, opcode, pton)
  }

  /** Byte k of the buffer after unmasking. */
  lemma UnmaskAt(s: seq<byte>, p: nat, n: nat, k: nat)
    requires 4 <= p && p + n <= |s| && k < |s|
    ensures Unmask(s, p, n)[k] == if p <= k < p + n then Xor8(s[k], s[p - 4 + (k - p) % 4]) else s[k]
  {
    var m := Masked(s[p..p + n], s[p - 4..p]);
    if k >= p + n {
      assert Unmask(s, p, n)[k] == s[p + n..][k - p - n];
    } else if k >= p {
      assert Unmask(s, p, n)[k] == m[k - p];
    }
  }

  /** One complete, masked, non-empty binary frame: its unmasked payload
      is appended and decoding goes on after it. */
  lemma BinaryFrameStep(s: seq<byte>, f: nat, rem: nat, out: seq<byte>, op: int,
                        pton: seq<byte> -> Option<seq<byte>>)
    requires f + 2 <= |s| && s[f] % 16 == OpBinary && s[f + 1] >= 128 && s[f + 1] % 128 != 127
    requires !Skipped(s, f)
    ensures var p := f + HeaderLen(s, f) + 4;
      var u := Unmask(s, p, PayloadLen(s, f));
      Frames(s, f, rem, out, op, pton) ==
        Frames(u, NextFrame(s, f), |s| - f, out + u[p..p + PayloadLen(s, f)], OpBinary, pton)
  {
  }

  /** One complete, masked, non-empty text frame: its unmasked payload goes
      through the base64 decoder. */
  lemma TextFrameStep(s: seq<byte>, f: nat, rem: nat, out: seq<byte>, op: int,
                      pton: seq<byte> -> Option<seq<byte>>)
    requires f + 2 <= |s| && s[f] % 16 == OpText && s[f + 1] >= 128 && s[f + 1] % 128 != 127
    requires !Skipped(s, f)
    ensures var p := f + HeaderLen(s, f) + 4;
      var u := Unmask(s, p, PayloadLen(s, f));
      var d := pton(u[p..p + PayloadLen(s, f)]);
      Frames(s, f, rem, out, op, pton) ==
        if d.None? then Run(false, out, OpText, |s|, u)
        else Frames(u, NextFrame(s, f), |s| - f, out + d.value, OpText, pton)
  {
  }

  /** A frame that is skipped: decoding goes on after it. */
  lemma SkipStep(s: seq<byte>, f: nat, rem: nat, out: seq<byte>, op: int,
                 pton: seq<byte> -> Option<seq<byte>>)
    requires f + 2 <= |s| && s[f] % 16 != OpClose && s[f + 1] % 128 != 127 && Skipped(s, f)
    ensures Frames(s, f, rem, out, op, pton) == Frames(s, NextFrame(s, f), |s| - f, out, s[f] % 16, pton)
  {
  }

  /** The unmasking loop: payload[i] ^= mask[i % 4]. */
  method UnmaskInPlace(a: array<byte>, p: nat, n: nat)
    requires 4 <= p && p + n <= a.Length
    modifies a
    ensures a[..] == Unmask(old(a[..]), p, n)
  {
    ghost var s := a[..];
    for i := 0 to n
      invariant forall k :: 0 <= k < a.Length && !(p <= k < p + i) ==> a[k] == s[k]
      invariant forall k :: 0 <= k < i ==> a[p + k] == Xor8(s[p + k], s[p - 4 + k % 4])
    {
      a[p + i] := Xor8(a[p + i], a[p - 4 + i % 4]);
    }
    forall k | 0 <= k < a.Length
      ensures a[k] == Unmask(s, p, n)[k]
    {
      UnmaskAt(s, p, n, k);
      if p <= k < p + n {
        assert a[p + (k - p)] == Xor8(s[p + (k - p)], s[p - 4 + (k - p) % 4]);
      }
    }
  }

  /** decode_hybi(src, srclength, target, ...): the return value, *opcode
      (op0 on entry), *left and the decoded bytes. */
  method DecodeHybi(src: array<byte>, op0: int, pton: seq<byte> -> Option<seq<byte>>)
    returns (r: int, opcode: int, left: nat, out: seq<byte>)
    modifies src
    ensures var run := Frames(old(src[..]), 0, 0, [], op0, pton);
      r == (if run.ok then |run.out| else -1) && opcode == run.opcode && left == run.left &&
      out == run.out && src[..] == run.buf
  {
    ghost var want := Frames(src[..], 0, 0, [], op0, pton);
    var f, rem := 0, 0;
    opcode, out := op0, [];
    while true
      invariant Frames(src[..], f, rem, out, opcode, pton) == want
      decreases if f <= src.Length then src.Length - f + 1 else 0
    {
      if f > src.Length {
        break;
      }
      rem := src.Length - f;
      if rem < 2 {
        break;
      }
      opcode := src[f] % 16;
      if opcode == OpClose {
        break;
      }
      if src[f + 1] % 128 == 127 {
        return -1, opcode, src.Length, out;
      }
      var next := NextFrame(src[..], f);
      if Skipped(src[..], f) {
        SkipStep(src[..], f, rem, out, opcode, pton);
        f := next;
        continue;
      }
      if src[f + 1] < 128 {
        return -1, opcode, src.Length, out;
      }
      var plen := PayloadLen(src[..], f);
      var p := f + HeaderLen(src[..], f) + 4;
      ghost var s := src[..];
      if opcode == OpText {
        TextFrameStep(s, f, rem, out, opcode, pton);
      } else {
        BinaryFrameStep(s, f, rem, out, opcode, pton);
      }
      UnmaskInPlace(src, p, plen);
      if opcode == OpText {
        var d := pton(src[p..p + plen]);
        if d.None? {
          return -1, opcode, src.Length, out;
        }
        out := out + d.value;
      } else {
        out := out + src[p..p + plen];
      }
      f := next;
    }
    r, left := |out|, rem;
  }

  // ---- encode_hybi ----

  /** The length encode_hybi puts in the header, as an int: the base64
      length of the payload for text, the payload length for binary. */
  function FrameLength(n: nat, opcode: int): i32
  {
    if opcode == OpText then ToI32(ToU64((n - 1) / 3 * 4 + 4)) else ToI32(n)
  }

  /** The frame header: FIN with the opcode, then a 7-bit length, or 126
      and a 16-bit big-endian length. */
  function Header(first: byte, len: int): (r: seq<byte>)
    requires len < 65536
    ensures |r| == (if len <= 125 then 2 else 4) && r[0] == first
  {
    if len <= 125 then [first, ToU8(len)] else [first, 126, len / 256, len % 256]
  }

  /** The frame encode_hybi writes: its return value and the bytes at the
      start of target. An opcode other than text or binary is refused
      before anything is written; a length that is not positive as an int
      gives 0 after the first byte; a length of 65536 or more is refused
      after the first byte. A text payload is the base64 text ntop gives,
      None when it does not fit; when it fits, ws_b64_ntop writes a NUL
      after it, which the bytes include and the return value does not. */
  function Encoding(src: seq<byte>, opcode: int, ntop: seq<byte> -> Option<seq<byte>>): (r: (int, seq<byte>))
  {
    if opcode != OpText && opcode != OpBinary then (-1, [])
    else if ToI32(|src|) <= 0 then (0, [0x80 + opcode])
    else
      var len := FrameLength(|src|, opcode);
      if len >= 65536 then (-1, [0x80 + opcode])
      else
        var header := Header(0x80 + opcode, len);
        if opcode == OpText then
          match ntop(src)
          case None => (-1, header)
          case Some(e) => (|e| + |header|, header + e + [0])
        else (len + |header|, header + src)
  }

  /** memcpy(target + o, data, |data|). */
  method CopyInto(target: array<byte>, o: nat, data: seq<byte>)
    requires o + |data| <= target.Length
    modifies target
    ensures target[..o] == old(target[..o]) && target[o..o + |data|] == data
    ensures target[o + |data|..] == old(target[o + |data|..])
  {
    for i := 0 to |data|
      invariant target[..o] == old(target[..o]) && target[o + |data|..] == old(target[o + |data|..])
      invariant target[o..o + i] == data[..i]
    {
      target[o + i] := data[i];
    }
  }

  /** The copy of ws_b64_ntop when the text fits: the text at o, then a
      NUL. */
  method CopyTerminated(target: array<byte>, o: nat, data: seq<byte>)
    requires o + |data| < target.Length
    modifies target
    ensures target[..o + |data| + 1] == old(target[..o]) + data + [0]
    ensures target[o + |data| + 1..] == old(target[o + |data| + 1..])
  {
    CopyInto(target, o, data);
    target[o + |data|] := 0;
    assert target[..o + |data| + 1] == target[..o] + target[o..o + |data|] + [0];
  }

  /** memcpy(target + o, data, |data|), as the bytes up to its end. */
  method CopyAfter(target: array<byte>, o: nat, data: seq<byte>)
    requires o + |data| <= target.Length
    modifies target
    ensures target[..o + |data|] == old(target[..o]) + data
    ensures target[o + |data|..] == old(target[o + |data|..])
  {
    CopyInto(target, o, data);
    assert target[..o + |data|] == target[..o] + target[o..o + |data|];
  }

  /** The header writes of encode_hybi after the first byte. */
  method PutLength(target: array<byte>, first: byte, len: int) returns (offset: nat)
    requires len < 65536 && target.Length >= |Header(first, len)| && target[0] == first
    modifies target
    ensures offset == |Header(first, len)|
    ensures target[..offset] == Header(first, len)
    ensures target[offset..] == old(target[offset..])
  {
    if len <= 125 {
      target[1] := ToU8(len);
      offset := 2;
    } else {
      target[1] := 126;
      target[2] := len / 256;
      target[3] := len % 256;
      offset := 4;
    }
  }

  /** encode_hybi(src, srclength, target, targsize, opcode). The code does
      not check that the target holds the frame; the caller provides room,
      and for a text frame one byte more for the NUL ws_b64_ntop writes
      after the base64 text. */
  method EncodeHybi(src: seq<byte>, target: array<byte>, opcode: int, ntop: seq<byte> -> Option<seq<byte>>)
    returns (r: int)
    requires |Encoding(src, opcode, ntop).1| <= target.Length
    modifies target
    ensures r == Encoding(src, opcode, ntop).0
    ensures var w := Encoding(src, opcode, ntop).1;
      target[..|w|] == w && target[|w|..] == old(target[|w|..])
  {
    if opcode != OpText && opcode != OpBinary {
      return -1;
    }
    target[0] := 0x80 + opcode;
    if ToI32(|src|) <= 0 {
      return 0;
    }
    var len := FrameLength(|src|, opcode);
    if len >= 65536 {
      return -1;
    }
    assert target[1..] == old(target[1..]);
    var offset := PutLength(target, 0x80 + opcode, len);
    assert target[offset..] == old(target[offset..]);
    if opcode == OpText {
      var e := ntop(src);
      if e.None? {
        return -1;
      }
      ghost var w := Header(0x80 + opcode, len) + e.value + [0];
      assert Encoding(src, opcode, ntop) == (|e.value| + offset, w);
      assert |w| == offset + (|e.value| + 1);
      assert target[|w|..] == target[offset..][|e.value| + 1..];
      assert old(target[|w|..]) == old(target[offset..])[|e.value| + 1..];
      CopyTerminated(target, offset, e.value);
      r := |e.value| + offset;
    } else {
      ghost var w := Header(0x80 + opcode, len) + src;
      assert Encoding(src, opcode, ntop) == (len + offset, w);
      assert |w| == offset + |src|;
      assert target[|w|..] == target[offset..][|src|..];
      assert old(target[|w|..]) == old(target[offset..])[|src|..];
      CopyAfter(target, offset, src);
      r := len + offset;
    }
  }

  // ---- what the framing promises ----

  /** The binary frame for a payload of 1 to 65535 bytes: FIN and the
      opcode, a 7-bit length up to 125 or 126 and a 16-bit big-endian
      length, then the payload unchanged; the return value counts them all.
      A longer payload is refused, and so is any other opcode. */
  lemma BinaryFrameLayout(src: seq<byte>, ntop: seq<byte> -> Option<seq<byte>>)
    requires 0 < |src| < 0x8000_0000
    ensures var (r, w) := Encoding(src, OpBinary, ntop);
      var off := if |src| <= 125 then 2 else 4;
      if |src| < 65536 then
        r == |w| == off + |src| && w[0] == 0x82 && w[off..] == src &&
        (off == 2 ==> w[1] == |src|) &&
        (off == 4 ==> w[1] == 126 && w[2] as int * 256 + w[3] == |src|)
      else r == -1
    ensures forall op :: op != OpText && op != OpBinary ==> Encoding(src, op, ntop) == (-1, [])
  {
  }

  /** The frame a client sends for the same payload: the mask bit set and
      the four key bytes between header and payload, the payload masked. */
  function ClientFrame(w: seq<byte>, off: nat, key: seq<byte>): seq<byte>
    requires 2 <= off <= |w| && |key| == 4 && w[1] < 128
  {
    [w[0], w[1] + 128] + w[2..off] + key + Masked(w[off..], key)
  }

  /** The client frame for a binary payload, as the decoder reads it. */
  lemma ClientFrameHeader(src: seq<byte>, key: seq<byte>, ntop: seq<byte> -> Option<seq<byte>>)
    requires 0 < |src| < 65536 && |key| == 4
    ensures var w := Encoding(src, OpBinary, ntop).1;
      var off := if |src| <= 125 then 2 else 4;
      var s := ClientFrame(w, off, key);
      |s| == off + 4 + |src| && s[0] == 0x82 && s[1] >= 128 && s[1] % 128 != 127 &&
      HeaderLen(s, 0) == off && PayloadLen(s, 0) == |src| && NextFrame(s, 0) == |s| &&
      s[off..off + 4] == key && s[off + 4..] == Masked(src, key)
  {
    BinaryFrameLayout(src, ntop);
    var w := Encoding(src, OpBinary, ntop).1;
    var off := if |src| <= 125 then 2 else 4;
    var s := ClientFrame(w, off, key);
    assert s[1] == w[1] + 128;
    if off == 4 {
      assert s[2] == w[2] && s[3] == w[3];
    }
    assert s[off..off + 4] == key;
  }

  /** Unmasking the masked payload at the end of a frame gives it back. */
  lemma ClientPayloadUnmasked(s: seq<byte>, p: nat, src: seq<byte>, key: seq<byte>)
    requires 4 <= p && |s| == p + |src| && s[p - 4..p] == key && s[p..] == Masked(src, key)
    ensures Unmask(s, p, |src|)[p..] == src
  {
    MaskTwice(src, key);
    assert s[p..p + |src|] == s[p..];
  }

  /** Round trip: the binary frame encode_hybi writes, sent back masked
      with any key as a client would send it, is decoded by decode_hybi to
      the original payload with nothing left over. */
  lemma DecodeClientFrame(src: seq<byte>, key: seq<byte>, op0: int,
                          ntop: seq<byte> -> Option<seq<byte>>, pton: seq<byte> -> Option<seq<byte>>)
    requires 0 < |src| < 65536 && |key| == 4
    ensures var w := Encoding(src, OpBinary, ntop).1;
      var off := if |src| <= 125 then 2 else 4;
      var run := Frames(ClientFrame(w, off, key), 0, 0, [], op0, pton);
      run.ok && run.out == src && run.opcode == OpBinary && run.left == 0
  {
    ClientFrameHeader(src, key, ntop);
    var w := Encoding(src, OpBinary, ntop).1;
    var off := if |src| <= 125 then 2 else 4;
    var s := ClientFrame(w, off, key);
    var p := off + 4;
    var u := Unmask(s, p, |src|);
    ClientPayloadUnmasked(s, p, src, key);
    assert u[p..p + |src|] == src;
    BinaryFrameStep(s, 0, 0, [], op0, pton);
    assert Frames(u, |s|, |s|, src, OpBinary, pton) == Run(true, src, OpBinary, 0, u);
  }

  /** The server refuses its own frames back: decode_hybi fails on a
      binary frame whose payload is not masked. */
  lemma UnmaskedRefused(src: seq<byte>, op0: int,
                        ntop: seq<byte> -> Option<seq<byte>>, pton: seq<byte> -> Option<seq<byte>>)
    requires 0 < |src| < 65536
    ensures !Frames(Encoding(src, OpBinary, ntop).1, 0, 0, [], op0, pton).ok
  {
    BinaryFrameLayout(src, ntop);
    var w := Encoding(src, OpBinary, ntop).1;
    assert !Skipped(w, 0);
  }

  /** A frame that has not fully arrived decodes to nothing and is left
      over whole, so the caller can keep it for the next read. */
  lemma TruncatedFrameLeft(src: seq<byte>, key: seq<byte>, k: nat, op0: int,
                           ntop: seq<byte> -> Option<seq<byte>>, pton: seq<byte> -> Option<seq<byte>>)
    requires 0 < |src| < 65536 && |key| == 4
    requires k < |src| + (if |src| <= 125 then 6 else 8)
    ensures var w := Encoding(src, OpBinary, ntop).1;
      var off := if |src| <= 125 then 2 else 4;
      var t := ClientFrame(w, off, key)[..k];
      Frames(t, 0, 0, [], op0, pton) == Run(true, [], if k < 2 then op0 else OpBinary, k, t)
  {
    ClientFrameHeader(src, key, ntop);
    var w := Encoding(src, OpBinary, ntop).1;
    var off := if |src| <= 125 then 2 else 4;
    var s := ClientFrame(w, off, key);
    var t := s[..k];
    if k >= 2 {
      assert t[0] == s[0] && t[1] == s[1];
      if off == 4 && k >= 4 {
        assert t[2] == s[2] && t[3] == s[3];
      }
      assert HeaderLen(t, 0) == off;
      assert NextFrame(t, 0) > k;
      assert Frames(t, 0, 0, [], op0, pton) == Frames(t, NextFrame(t, 0), k, [], OpBinary, pton);
    }
  }
}
