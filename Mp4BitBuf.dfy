/** The growable output buffer the MP4 box writers append to. A BitBuf holds
    its storage (whose length is the C `size`) and a write offset; every put
    first grows the storage when the write would reach its end, then stores
    the bytes, and the plain puts advance the offset past them. */
module Mp4BitBuf {
  import opened Bytes

  datatype BufError = BufOk | BufEndOfBufError | BufMallocError | BufIncorrect

  /** buf_error_to_str. */
  function BufErrorToStr(err: BufError): (r: string)
  {
    match err
    case BufOk => "BUF_OK"
    case BufEndOfBufError => "BUF_ENDOFBUF_ERROR"
    case BufMallocError => "BUF_MALLOC_ERROR"
    case BufIncorrect => "BUF_INCORRECT"
  }

  /** Every error has its own name, and each name starts with "BUF_". */
  lemma BufErrorNames(e1: BufError, e2: BufError)
    ensures BufErrorToStr(e1)[..4] == "BUF_"
    ensures e1 != e2 ==> BufErrorToStr(e1) != BufErrorToStr(e2)
  {
  }

  /** The grow rule of try_to_realloc: storage of size bytes becomes size +
      minSize + 1024 bytes long. The new bytes are zero here; realloc leaves
      them undefined, and no box writer reads them before writing them. */
  function Grow(s: seq<byte>, minSize: nat): (r: seq<byte>)
    ensures |r| == |s| + minSize + 1024 && r[..|s|] == s
  {
    s + Zeros(minSize + 1024)
  }

  /** The storage after the check of a write ending at pos: grown when pos
      reaches its end (`pos >= size`), or, for the 64-bit store, when pos
      passes it (`pos > size`). */
  function Reserved(s: seq<byte>, pos: nat, strict: bool): (r: seq<byte>)
    ensures |s| <= |r| && r[..|s|] == s
    ensures if strict then pos <= |r| else pos < |r|
    ensures (if strict then pos > |s| else pos >= |s|) <==> |r| == |s| + pos + 1024
    ensures !(if strict then pos > |s| else pos >= |s|) <==> r == s
  {
    if (if strict then pos > |s| else pos >= |s|) then Grow(s, pos) else s
  }

  /** s with the bytes at at .. at + |b| - 1 replaced by b. */
  function Splice(s: seq<byte>, at: nat, b: seq<byte>): (r: seq<byte>)
    requires at + |b| <= |s|
    ensures |r| == |s|
    ensures forall k :: 0 <= k < |r| ==> r[k] == if at <= k < at + |b| then b[k - at] else s[k]
  {
    s[..at] + b + s[at + |b|..]
  }

  /** Storing b at the end of the first o bytes of s, after a grow that kept
      them, extends those bytes by b. */
  lemma SpliceAppends(s: seq<byte>, g: seq<byte>, o: nat, b: seq<byte>)
    requires o <= |s| <= |g| && g[..|s|] == s && o + |b| <= |g|
    ensures Splice(g, o, b)[..o + |b|] == s[..o] + b
  {
    var r := Splice(g, o, b);
    forall k | 0 <= k < o + |b|
      ensures r[..o + |b|][k] == (s[..o] + b)[k]
    {
      if k < o {
        assert g[k] == g[..|s|][k];
      }
    }
  }

  /** Storing b inside the first o bytes of s, after a grow that kept them,
      splices b into those bytes. */
  lemma SplicePatches(s: seq<byte>, g: seq<byte>, o: nat, at: nat, b: seq<byte>)
    requires o <= |s| <= |g| && g[..|s|] == s && at + |b| <= o
    ensures Splice(g, at, b)[..o] == Splice(s[..o], at, b)
  {
    var r := Splice(g, at, b);
    forall k | 0 <= k < o
      ensures r[..o][k] == Splice(s[..o], at, b)[k]
    {
      assert g[k] == g[..|s|][k];
    }
  }

  class BitBuf {
    /** The storage; its length is the C `size`. */
    var buf: seq<byte>
    var offset: int

    ghost predicate Valid()
      reads this
    {
      0 <= offset <= |buf|
    }

    /** The bytes written so far. */
    function Contents(): (r: seq<byte>)
      reads this
      requires Valid()
      ensures |r| == offset
    {
      buf[..offset]
    }

    /** A zeroed BitBuf, as a freshly allocated context holds. */
    constructor ()
      ensures Valid() && buf == [] && offset == 0
    {
      buf, offset := [], 0;
    }

    /** try_to_realloc. */
    method TryToRealloc(minSize: nat)
      requires Valid()
      modifies this`buf
      ensures Valid() && buf == Grow(old(buf), minSize)
    {
      buf := buf + Zeros(minSize + 1024);
    }

    /** The byte-copy loop of the stores. */
    method CopyIn(at: nat, data: seq<byte>)
      requires Valid() && at + |data| <= |buf|
      modifies this`buf
      ensures Valid() && buf == Splice(old(buf), at, data)
    {
      ghost var b0 := buf;
      for i := 0 to |data|
        invariant |buf| == |b0|
        invariant forall k :: 0 <= k < |buf| ==> buf[k] == if at <= k < at + i then data[k - at] else b0[k]
      {
        buf := buf[at + i := data[i]];
      }
      assert buf == Splice(b0, at, data);
    }

    /** A store of b at at, after the size check: the storage the check
        leaves, with b spliced in. */
    ghost predicate StoredAt(b0: seq<byte>, at: nat, b: seq<byte>, strict: bool)
      reads this
    {
      var g := Reserved(b0, at + |b|, strict);
      at + |b| <= |g| && buf == Splice(g, at, b)
    }

    /** The append half of every plain put: the store at the old offset, the
        offset advanced past it, and the written bytes extended by b. */
    lemma Appended(b0: seq<byte>, o0: int, b: seq<byte>, strict: bool)
      requires 0 <= o0 <= |b0| && o0 + |b| <= |buf|
      requires StoredAt(b0, o0, b, strict) && offset == o0 + |b|
      ensures Valid() && Contents() == b0[..o0] + b
    {
      SpliceAppends(b0, Reserved(b0, o0 + |b|, strict), o0, b);
    }

    /** The patch half of every put_*_to_offset inside the written bytes. */
    lemma Patched(b0: seq<byte>, at: nat, b: seq<byte>, strict: bool)
      requires 0 <= offset <= |b0| && at + |b| <= offset
      requires StoredAt(b0, at, b, strict)
      ensures Valid() && Contents() == Splice(b0[..offset], at, b)
    {
      SplicePatches(b0, Reserved(b0, at + |b|, strict), offset, at, b);
    }

    /** put_skip: count zero bytes at the offset, which moves past them. */
    method PutSkip(count: nat)
      requires Valid()
      modifies this
      ensures StoredAt(old(buf), old(offset), Zeros(count), false)
      ensures offset == old(offset) + count
      ensures Valid() && Contents() == old(Contents()) + Zeros(count)
    {
      var pos := offset + count;
      if pos >= |buf| {
        TryToRealloc(pos);
      }
      CopyIn(offset, Zeros(count));
      offset := pos;
      Appended(old(buf), old(offset), Zeros(count), false);
    }

    /** put_to_offset: data at an explicit offset; the offset is kept. */
    method PutToOffset(at: nat, data: seq<byte>)
      requires Valid()
      modifies this`buf
      ensures StoredAt(old(buf), at, data, false) && offset == old(offset)
      ensures Valid() && (at + |data| <= offset ==> Contents() == Splice(old(Contents()), at, data))
    {
      var pos := at + |data|;
      if pos >= |buf| {
        TryToRealloc(pos);
      }
      CopyIn(at, data);
      if at + |data| <= offset {
        Patched(old(buf), at, data, false);
      }
    }

    /** put: data at the offset, which moves past it. */
    method Put(data: seq<byte>)
      requires Valid()
      modifies this
      ensures StoredAt(old(buf), old(offset), data, false)
      ensures offset == old(offset) + |data|
      ensures Valid() && Contents() == old(Contents()) + data
    {
      PutToOffset(offset, data);
      offset := offset + |data|;
      Appended(old(buf), old(offset), data, false);
    }

    method PutU8ToOffset(at: nat, val: byte)
      requires Valid()
      modifies this`buf
      ensures StoredAt(old(buf), at, [val], false) && offset == old(offset)
      ensures Valid() && (at + 1 <= offset ==> Contents() == Splice(old(Contents()), at, [val]))
    {
      var pos := at + 1;
      if pos >= |buf| {
        TryToRealloc(pos);
      }
      CopyIn(at, [val]);
      if at + 1 <= offset {
        Patched(old(buf), at, [val], false);
      }
    }

    method PutU8(val: byte)
      requires Valid()
      modifies this
      ensures StoredAt(old(buf), old(offset), [val], false)
      ensures offset == old(offset) + 1
      ensures Valid() && Contents() == old(Contents()) + [val]
    {
      PutU8ToOffset(offset, val);
      offset := offset + 1;
      Appended(old(buf), old(offset), [val], false);
    }

    method PutU16BeToOffset(at: nat, val: u16)
      requires Valid()
      modifies this`buf
      ensures StoredAt(old(buf), at, BE16(val), false) && offset == old(offset)
      ensures Valid() && (at + 2 <= offset ==> Contents() == Splice(old(Contents()), at, BE16(val)))
    {
      var pos := at + 2;
      if pos >= |buf| {
        TryToRealloc(pos);
      }
      CopyIn(at, BE16(val));
      if at + 2 <= offset {
        Patched(old(buf), at, BE16(val), false);
      }
    }

    method PutU16Be(val: u16)
      requires Valid()
      modifies this
      ensures StoredAt(old(buf), old(offset), BE16(val), false)
      ensures offset == old(offset) + 2
      ensures Valid() && Contents() == old(Contents()) + BE16(val)
    {
      PutU16BeToOffset(offset, val);
      offset := offset + 2;
      Appended(old(buf), old(offset), BE16(val), false);
    }

    method PutU16LeToOffset(at: nat, val: u16)
      requires Valid()
      modifies this`buf
      ensures StoredAt(old(buf), at, LE16(val), false) && offset == old(offset)
      ensures Valid() && (at + 2 <= offset ==> Contents() == Splice(old(Contents()), at, LE16(val)))
    {
      var pos := at + 2;
      if pos >= |buf| {
        TryToRealloc(pos);
      }
      CopyIn(at, LE16(val));
      if at + 2 <= offset {
        Patched(old(buf), at, LE16(val), false);
      }
    }

    method PutU16Le(val: u16)
      requires Valid()
      modifies this
      ensures StoredAt(old(buf), old(offset), LE16(val), false)
      ensures offset == old(offset) + 2
      ensures Valid() && Contents() == old(Contents()) + LE16(val)
    {
      PutU16LeToOffset(offset, val);
      offset := offset + 2;
      Appended(old(buf), old(offset), LE16(val), false);
    }

    method PutU32BeToOffset(at: nat, val: u32)
      requires Valid()
      modifies this`buf
      ensures StoredAt(old(buf), at, BE32(val), false) && offset == old(offset)
      ensures Valid() && (at + 4 <= offset ==> Contents() == Splice(old(Contents()), at, BE32(val)))
    {
      var pos := at + 4;
      if pos >= |buf| {
        TryToRealloc(pos);
      }
      CopyIn(at, BE32(val));
      if at + 4 <= offset {
        Patched(old(buf), at, BE32(val), false);
      }
    }

    method PutU32Be(val: u32)
      requires Valid()
      modifies this
      ensures StoredAt(old(buf), old(offset), BE32(val), false)
      ensures offset == old(offset) + 4
      ensures Valid() && Contents() == old(Contents()) + BE32(val)
    {
      PutU32BeToOffset(offset, val);
      offset := offset + 4;
      Appended(old(buf), old(offset), BE32(val), false);
    }

    /** put_i32_be: the two's complement bits, through the unsigned store. */
    method PutI32Be(val: i32)
      requires Valid()
      modifies this
      ensures StoredAt(old(buf), old(offset), BE32(I32Bits(val)), false)
      ensures offset == old(offset) + 4
      ensures Valid() && Contents() == old(Contents()) + BE32(I32Bits(val))
    {
      PutU32BeToOffset(offset, I32Bits(val));
      offset := offset + 4;
      Appended(old(buf), old(offset), BE32(I32Bits(val)), false);
    }

    /** put_u64_be_to_offset: the one store that grows only when the write
        would pass the end of the storage. */
    method PutU64BeToOffset(at: nat, val: u64)
      requires Valid()
      modifies this`buf
      ensures StoredAt(old(buf), at, BE64(val), true) && offset == old(offset)
      ensures Valid() && (at + 8 <= offset ==> Contents() == Splice(old(Contents()), at, BE64(val)))
    {
      var pos := at + 8;
      if pos > |buf| {
        TryToRealloc(pos);
      }
      CopyIn(at, BE64(val));
      if at + 8 <= offset {
        Patched(old(buf), at, BE64(val), true);
      }
    }

    method PutU64Be(val: u64)
      requires Valid()
      modifies this
      ensures StoredAt(old(buf), old(offset), BE64(val), true)
      ensures offset == old(offset) + 8
      ensures Valid() && Contents() == old(Contents()) + BE64(val)
    {
      PutU64BeToOffset(offset, val);
      offset := offset + 8;
      Appended(old(buf), old(offset), BE64(val), true);
    }

    method PutU32LeToOffset(at: nat, val: u32)
      requires Valid()
      modifies this`buf
      ensures StoredAt(old(buf), at, LE32(val), false) && offset == old(offset)
      ensures Valid() && (at + 4 <= offset ==> Contents() == Splice(old(Contents()), at, LE32(val)))
    {
      var pos := at + 4;
      if pos >= |buf| {
        TryToRealloc(pos);
      }
      CopyIn(at, LE32(val));
      if at + 4 <= offset {
        Patched(old(buf), at, LE32(val), false);
      }
    }

    method PutU32Le(val: u32)
      requires Valid()
      modifies this
      ensures StoredAt(old(buf), old(offset), LE32(val), false)
      ensures offset == old(offset) + 4
      ensures Valid() && Contents() == old(Contents()) + LE32(val)
    {
      PutU32LeToOffset(offset, val);
      offset := offset + 4;
      Appended(old(buf), old(offset), LE32(val), false);
    }

    /** put_str4_to_offset: a four-character box type. */
    method PutStr4ToOffset(at: nat, str: seq<byte>)
      requires Valid() && |str| == 4
      modifies this`buf
      ensures StoredAt(old(buf), at, str, false) && offset == old(offset)
      ensures Valid() && (at + 4 <= offset ==> Contents() == Splice(old(Contents()), at, str))
    {
      var pos := at + 4;
      if pos >= |buf| {
        TryToRealloc(pos);
      }
      CopyIn(at, str);
      if at + 4 <= offset {
        Patched(old(buf), at, str, false);
      }
    }

    method PutStr4(str: seq<byte>)
      requires Valid() && |str| == 4
      modifies this
      ensures StoredAt(old(buf), old(offset), str, false)
      ensures offset == old(offset) + 4
      ensures Valid() && Contents() == old(Contents()) + str
    {
      PutStr4ToOffset(offset, str);
      offset := offset + 4;
      Appended(old(buf), old(offset), str, false);
    }

    /** put_counted_str_to_offset: the len characters and the byte after
        them (the string's NUL), then one more zero byte past those, which
        the size check has made room for. The string must be readable for
        len + 1 bytes. */
    method PutCountedStrToOffset(at: nat, str: seq<byte>, len: nat)
      requires Valid() && len + 1 <= |str|
      modifies this`buf
      ensures offset == old(offset)
      ensures var g := Reserved(old(buf), at + len + 1, false);
        at + len + 2 <= |g| && buf == Splice(g, at, str[..len + 1] + [0])
      ensures Valid() && (at + len + 2 <= offset ==>
        Contents() == Splice(old(Contents()), at, str[..len + 1] + [0]))
    {
      var pos := at + len + 1;
      if pos >= |buf| {
        TryToRealloc(pos);
      }
      ghost var g := buf;
      CopyIn(at, str[..len + 1]);
      buf := buf[pos := 0];
      assert buf == Splice(g, at, str[..len + 1] + [0]);
      if at + len + 2 <= offset {
        SplicePatches(old(buf), g, offset, at, str[..len + 1] + [0]);
      }
    }

    /** put_counted_str: the offset moves past the characters and their NUL;
        the extra zero lies just beyond it. */
    method PutCountedStr(str: seq<byte>, len: nat)
      requires Valid() && len + 1 <= |str|
      modifies this
      ensures offset == old(offset) + len + 1
      ensures var g := Reserved(old(buf), old(offset) + len + 1, false);
        old(offset) + len + 2 <= |g| && buf == Splice(g, old(offset), str[..len + 1] + [0])
      ensures Valid() && Contents() == old(Contents()) + str[..len + 1]
    {
      PutCountedStrToOffset(offset, str, len);
      offset := offset + len + 1;
      ghost var b := str[..len + 1] + [0];
      SpliceAppends(old(buf), Reserved(old(buf), old(offset) + len + 1, false), old(offset), b);
      assert buf[..offset + 1] == old(buf)[..old(offset)] + b;
      assert buf[..offset] == buf[..offset + 1][..offset];
    }
  }
}
