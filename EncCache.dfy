/** The cache of encoded rectangles: encoded bytes kept under the
    rectangle's encoder type and position, with the length recorded when
    the entry was first made. */
module EncCache {
  import opened Bytes
  import opened Wrappers

  /** The lookup key: encoder type and rectangle. The length the code
      keeps beside them in EncId is not compared, so it is part of the
      entry here. */
  datatype EncId = EncId(kind: byte, x: u16, y: u16, w: u16, h: u16)

  /** An entry: the length recorded with the key, and the data. */
  datatype Entry = Entry(len: u32, data: seq<byte>)

  /** EncId::operator< as written: true as soon as ANY field of a is less
      than the same field of b. */
  predicate SourceLess(a: EncId, b: EncId)
  {
    a.kind < b.kind || a.x < b.x || a.y < b.y || a.w < b.w || a.h < b.h
  }

  /** The comparator as written is not a strict weak ordering, which
      std::map requires: two keys can each be less than the other. */
  lemma SourceLessNotAsymmetric()
    ensures var a, b := EncId(0, 1, 0, 0, 0), EncId(1, 0, 0, 0, 0);
      SourceLess(a, b) && SourceLess(b, a)
  {
  }

  /** Still, two keys neither of which is less than the other are equal,
      so the equivalence the map derives is equality of the five fields. */
  lemma SourceEquivalence(a: EncId, b: EncId)
    ensures !SourceLess(a, b) && !SourceLess(b, a) <==> a == b
  {
  }

  /** The lexicographic order evidently meant: type, then x, y, w, h. */
  predicate Less(a: EncId, b: EncId)
  {
    a.kind < b.kind
    || (a.kind == b.kind && (a.x < b.x
    || (a.x == b.x && (a.y < b.y
    || (a.y == b.y && (a.w < b.w
    || (a.w == b.w && a.h < b.h)))))))
  }

  /** The lexicographic order is a strict total order on keys, so a map
      over it finds every key it holds; the cache below is keyed by value
      on that ground. */
  lemma LessIsStrictTotal(a: EncId, b: EncId, c: EncId)
    ensures !Less(a, a)
    ensures Less(a, b) ==> !Less(b, a)
    ensures Less(a, b) && Less(b, c) ==> Less(a, c)
    ensures a != b ==> Less(a, b) || Less(b, a)
  {
  }

  /** The entries after add(id, len, data): a new key takes the given
      length; an existing key keeps its first length and takes the new
      data, since operator[] keeps the stored key. */
  function Added(m: map<EncId, Entry>, id: EncId, len: u32, data: seq<byte>): (r: map<EncId, Entry>)
    ensures id in r && r[id].data == data
    ensures r[id].len == if id in m then m[id].len else len
    ensures forall k :: k in m && k != id ==> k in r && r[k] == m[k]
    ensures r.Keys == m.Keys + {id}
  {
    var l := if id in m then m[id].len else len;
    m[id := Entry(l, data)]
  }

  /** What get answers for a key: the data and the recorded length, or
      None (NULL) with len as it was. */
  function Lookup(m: map<EncId, Entry>, id: EncId, len: u32): (Option<seq<byte>>, u32)
  {
    if id in m then (Some(m[id].data), m[id].len) else (None, len)
  }

  /** get after add finds the data just added, with the length of the
      key's first add; the other keys answer as before. */
  lemma GetAfterAdd(m: map<EncId, Entry>, id: EncId, len: u32, data: seq<byte>, other: EncId, anyLen: u32)
    ensures Lookup(Added(m, id, len, data), id, anyLen) == (Some(data), if id in m then m[id].len else len)
    ensures other != id ==> Lookup(Added(m, id, len, data), other, anyLen) == Lookup(m, other, anyLen)
  {
  }

  /** A second add under a key with another length keeps the first
      length, because the length is not part of the lookup. */
  lemma ReAddKeepsLength(m: map<EncId, Entry>, id: EncId, len1: u32, len2: u32, d1: seq<byte>, d2: seq<byte>)
    requires id !in m
    ensures Added(Added(m, id, len1, d1), id, len2, d2)[id] == Entry(len1, d2)
  {
  }

  /** The length given to get plays no part in the lookup. */
  lemma LenNotInKey(m: map<EncId, Entry>, id: EncId, l1: u32, l2: u32)
    requires id in m
    ensures Lookup(m, id, l1) == Lookup(m, id, l2)
  {
  }

  class Cache {
    var enabled: bool
    var entries: map<EncId, Entry>

    /** A new cache is disabled and empty. */
    constructor ()
      ensures !enabled && entries == map[]
    {
      enabled := false;
      entries := map[];
    }

    /** clear(): every entry goes (the code also frees their data). */
    method Clear()
      modifies this
      ensures entries == map[] && enabled == old(enabled)
    {
      entries := map[];
    }

    /** add(type, x, y, w, h, len, data) */
    method Add(id: EncId, len: u32, data: seq<byte>)
      modifies this
      ensures entries == Added(old(entries), id, len, data) && enabled == old(enabled)
    {
      var l := len;
      if id in entries {
        l := entries[id].len;
      }
      entries := entries[id := Entry(l, data)];
    }

    /** get(type, x, y, w, h, len) */
    method Get(id: EncId, len: u32) returns (data: Option<seq<byte>>, len': u32)
      ensures (data, len') == Lookup(entries, id, len)
      ensures data.None? <==> id !in entries
    {
      if id !in entries {
        return None, len;
      }
      return Some(entries[id].data), entries[id].len;
    }
  }
}
