/** The byte streams of the protocol code. The sink the encoders write to
    holds everything written so far, in order; the source the readers read
    from holds the bytes received and the position of the next unread one.
    Buffering, flushing and waiting for more data are not modelled: a read
    past the end of what was received fails, as the stream's end-of-stream
    exception does. */
module RdrStream {
  import opened Bytes
  import opened Wrappers

  class OutStream {
    var data: seq<byte>

    constructor ()
      ensures data == []
    {
      data := [];
    }

    /** writeU8 */
    method WriteU8(b: byte)
      modifies this
      ensures data == old(data) + [b]
    {
      data := data + [b];
    }

    /** writeBytes */
    method WriteBytes(s: seq<byte>)
      modifies this
      ensures data == old(data) + s
    {
      data := data + s;
    }
  }

  /** Two's complement reading of a 16-bit value (readS16). */
  function AsS16(v: u16): (r: int)
    ensures -0x8000 <= r < 0x8000
    ensures r >= 0 <==> v < 0x8000
    ensures r % TWO16 == v
  {
    if v < 0x8000 then v else v - TWO16
  }

  class InStream {
    var data: seq<byte>
    var pos: nat

    ghost predicate Valid()
      reads this
    {
      pos <= |data|
    }

    /** A stream over the received bytes, nothing read yet. */
    constructor (received: seq<byte>)
      ensures data == received && pos == 0 && Valid()
    {
      data := received;
      pos := 0;
    }

    /** The bytes not read yet. */
    function Avail(): (n: nat)
      reads this
      requires Valid()
      ensures pos + n == |data|
    {
      |data| - pos
    }

    /** readU8: the next byte, or None at the end of the stream. */
    method ReadU8() returns (r: Option<byte>)
      requires Valid()
      modifies this
      ensures Valid() && data == old(data)
      ensures old(pos) + 1 <= |data| ==> r == Some(data[old(pos)]) && pos == old(pos) + 1
      ensures old(pos) + 1 > |data| ==> r.None? && pos == old(pos)
    {
      if pos + 1 > |data| {
        return None;
      }
      r := Some(data[pos]);
      pos := pos + 1;
    }

    /** readU16: the next two bytes, most significant first. */
    method ReadU16() returns (r: Option<u16>)
      requires Valid()
      modifies this
      ensures Valid() && data == old(data)
      ensures old(pos) + 2 <= |data| ==> r == Some(GetBE16(data, old(pos))) && pos == old(pos) + 2
      ensures old(pos) + 2 > |data| ==> r.None? && pos == old(pos)
    {
      if pos + 2 > |data| {
        return None;
      }
      r := Some(GetBE16(data, pos));
      pos := pos + 2;
    }

    /** readS16: the next two bytes as a signed value. */
    method ReadS16() returns (r: Option<int>)
      requires Valid()
      modifies this
      ensures Valid() && data == old(data)
      ensures old(pos) + 2 <= |data| ==> r == Some(AsS16(GetBE16(data, old(pos)))) && pos == old(pos) + 2
      ensures old(pos) + 2 > |data| ==> r.None? && pos == old(pos)
    {
      if pos + 2 > |data| {
        return None;
      }
      r := Some(AsS16(GetBE16(data, pos)));
      pos := pos + 2;
    }

    /** readU32: the next four bytes, most significant first. */
    method ReadU32() returns (r: Option<u32>)
      requires Valid()
      modifies this
      ensures Valid() && data == old(data)
      ensures old(pos) + 4 <= |data| ==> r == Some(GetBE32(data, old(pos))) && pos == old(pos) + 4
      ensures old(pos) + 4 > |data| ==> r.None? && pos == old(pos)
    {
      if pos + 4 > |data| {
        return None;
      }
      r := Some(GetBE32(data, pos));
      pos := pos + 4;
    }

    /** readBytes(n): the next n bytes. */
    method ReadBytes(n: nat) returns (r: Option<seq<byte>>)
      requires Valid()
      modifies this
      ensures Valid() && data == old(data)
      ensures old(pos) + n <= |data| ==> r == Some(data[old(pos)..old(pos) + n]) && pos == old(pos) + n
      ensures old(pos) + n > |data| ==> r.None? && pos == old(pos)
    {
      if pos + n > |data| {
        return None;
      }
      r := Some(data[pos..pos + n]);
      pos := pos + n;
    }

    /** skip(n): the next n bytes are passed over; false at the end of
        the stream. */
    method Skip(n: nat) returns (ok: bool)
      requires Valid()
      modifies this
      ensures Valid() && data == old(data)
      ensures ok <==> old(pos) + n <= |data|
      ensures ok ==> pos == old(pos) + n
      ensures !ok ==> pos == old(pos)
    {
      if pos + n > |data| {
        return false;
      }
      pos := pos + n;
      return true;
    }
  }
}
