/** The comparing update tracker: the power-of-two helpers of its scroll
    detection, the merging of found scroll blocks into copy rectangles,
    and the enabled / first-compare states of compare(). The pixel
    comparison and the block hashing are not part of this model; what they
    find is given as parameters. */
module CompareTracker {
  import opened Geometry

  // ---- ispow, npow, pow2shift ----

  /** ispow(in): in is at least 2 and has a single bit set. */
  predicate IsPow(x: bv32)
  {
    x >= 2 && (x & (x - 1)) == 0
  }

  /** in with every bit below its highest set bit set as well. */
  function Smear(x: bv32): bv32
  {
    var a := x | (x >> 1);
    var b := a | (a >> 2);
    var c := b | (b >> 4);
    var d := c | (c >> 8);
    d | (d >> 16)
  }

  /** npow(in) */
  function Npow(x: bv32): bv32
  {
    if IsPow(x) then x else Smear(x) + 1
  }

  /** A power of two of 2 or more is its own npow. */
  lemma NpowOfPow(x: bv32)
    requires IsPow(x)
    ensures Npow(x) == x
  {
  }

  /** Below 2^31, npow of anything else is the smallest power of two above
      it: a single bit, greater than the input, and its half is not. So
      npow(0) == 1 and npow(1) == 2. */
  lemma NpowAbove(x: bv32)
    requires !IsPow(x) && x < 0x8000_0000
    ensures Npow(x) > x
    ensures (Npow(x) & (Npow(x) - 1)) == 0
    ensures Npow(x) >> 1 <= x
  {
    NpowGreater(x);
    NpowSingleBit(x);
    NpowHalf(x);
  }

  lemma NpowGreater(x: bv32)
    requires !IsPow(x) && x < 0x8000_0000
    ensures Npow(x) > x
  {
  }

  lemma NpowSingleBit(x: bv32)
    requires !IsPow(x) && x < 0x8000_0000
    ensures (Npow(x) & (Npow(x) - 1)) == 0
  {
  }

  lemma NpowHalf(x: bv32)
    requires !IsPow(x) && x < 0x8000_0000
    ensures Npow(x) >> 1 <= x
  {
  }

  /** From 2^31 on, the smeared value is all ones and npow wraps to 0. */
  lemma NpowWraps(x: bv32)
    requires !IsPow(x) && x >= 0x8000_0000
    ensures Npow(x) == 0
  {
  }

  /** __builtin_ffs: one plus the index of the lowest set bit, 0 for 0. */
  function Ffs(x: bv32): (r: nat)
    ensures r == 0 <==> x == 0
    decreases x
  {
    if x == 0 then 0 else if x & 1 == 1 then 1 else 1 + Ffs(x >> 1)
  }

  /** pow2shift(in): ffs(in) - 1, as an unsigned 32-bit value (so 0 gives
      0xFFFFFFFF). */
  function Pow2Shift(x: bv32): (r: nat)
    ensures x == 0 ==> r == 0xFFFF_FFFF
    ensures x != 0 ==> r == Ffs(x) - 1
  {
    if x == 0 then 0xFFFF_FFFF else Ffs(x) - 1
  }

  /** 1 << k in 32 bits. */
  function Pow2(k: nat): bv32
  {
    if k == 0 then 1 else Pow2(k - 1) << 1
  }

  /** For a power of two p, 1 << pow2shift(p) == p. */
  lemma Pow2ShiftBack(p: bv32)
    requires IsPow(p)
    ensures Pow2(Pow2Shift(p)) == p && Pow2Shift(p) >= 1
  {
    LowBitBack(p);
  }

  lemma {:induction false} LowBitBack(x: bv32)
    requires x != 0 && (x & (x - 1)) == 0
    ensures Ffs(x) >= 1 && Pow2(Ffs(x) - 1) == x
    ensures x >= 2 ==> Ffs(x) >= 2
    decreases x
  {
    if x & 1 != 1 {
      var h := x >> 1;
      assert h < x && h != 0 && (h & (h - 1)) == 0 && h << 1 == x;
      LowBitBack(h);
    }
  }

  // ---- copy rectangles and tryMerge ----

  const ScrollBlockSize := 64

  /** A rectangle to fill by copying from (srcX, srcY) of the old frame. */
  datatype CopyPass = CopyPass(rect: Rect, srcX: int, srcY: int)

  /** The copy sends pixel (px, py) from (sx, sy). */
  predicate Maps(c: CopyPass, px: int, py: int, sx: int, sy: int)
  {
    c.rect.tlx <= px < c.rect.brx && c.rect.tly <= py < c.rect.bry
    && sx == c.srcX + (px - c.rect.tlx) && sy == c.srcY + (py - c.rect.tly)
  }

  /** Some copy of the list sends (px, py) from (sx, sy). */
  predicate ListMaps(cs: seq<CopyPass>, px: int, py: int, sx: int, sy: int)
  {
    exists i :: 0 <= i < |cs| && Maps(cs[i], px, py, sx, sy)
  }

  predicate AllValid(cs: seq<CopyPass>)
  {
    forall i :: 0 <= i < |cs| ==> cs[i].rect.Valid()
  }

  function TotalArea(cs: seq<CopyPass>): int
  {
    if cs == [] then 0 else TotalArea(cs[..|cs| - 1]) + cs[|cs| - 1].rect.Width() * cs[|cs| - 1].rect.Height()
  }

  /** The found block: lines y..y+outlines of the 64-pixel-wide block at
      blockLeft, copied from (outx, outy). */
  function Block(y: int, blockLeft: int, blockRight: int, outlines: nat, outx: nat, outy: nat): CopyPass
  {
    CopyPass(Rect(blockLeft, y, blockRight, y + outlines), outx, outy)
  }

  /** The last copy ends where the block begins, on the same lines, and
      its source continues into the block's source. */
  predicate CanExtend(cs: seq<CopyPass>, y: int, blockLeft: int, outlines: nat, outx: nat, outy: nat)
  {
    |cs| > 0 &&
    var last := cs[|cs| - 1];
    last.rect.tly == y && last.rect.brx == blockLeft && last.rect.bry == y + outlines
    && last.srcX + last.rect.Width() == outx && last.srcY == outy
  }

  /** The last two copies are stacked with equal x-extents and contiguous
      sources. */
  predicate CanStack(cs: seq<CopyPass>)
  {
    |cs| > 1 &&
    var prev, cur := cs[|cs| - 2], cs[|cs| - 1];
    prev.rect.bry == cur.rect.tly && prev.rect.tlx == cur.rect.tlx && prev.rect.brx == cur.rect.brx
    && prev.srcX == cur.srcX && prev.srcY + prev.rect.Height() == cur.srcY
  }

  function Extended(c: CopyPass): CopyPass
  {
    c.(rect := c.rect.(brx := c.rect.brx + ScrollBlockSize))
  }

  function Stacked(prev: CopyPass, cur: CopyPass): CopyPass
  {
    prev.(rect := prev.rect.(bry := prev.rect.bry + cur.rect.Height()))
  }

  /** The list before the new block is appended: the last two copies
      merged when they stack. */
  function Compacted(cs: seq<CopyPass>): (r: seq<CopyPass>)
    ensures |r| == if CanStack(cs) then |cs| - 1 else |cs|
  {
    if CanStack(cs) then cs[..|cs| - 2] + [Stacked(cs[|cs| - 2], cs[|cs| - 1])] else cs
  }

  /** tryMerge(copyPassRects, y, blockLeft, blockRight, outlines, outx,
      outy): the last copy grows by one block to the right when the block
      continues it; otherwise the last two copies merge when stacked and
      the block is appended. */
  function TryMerged(cs: seq<CopyPass>, y: int, blockLeft: int, blockRight: int, outlines: nat, outx: nat, outy: nat)
    : (r: seq<CopyPass>)
    ensures CanExtend(cs, y, blockLeft, outlines, outx, outy) ==>
      |r| == |cs| && r[..|cs| - 1] == cs[..|cs| - 1] && r[|cs| - 1] == Extended(cs[|cs| - 1])
    ensures !CanExtend(cs, y, blockLeft, outlines, outx, outy) ==>
      r == Compacted(cs) + [Block(y, blockLeft, blockRight, outlines, outx, outy)]
  {
    if CanExtend(cs, y, blockLeft, outlines, outx, outy) then
      cs[..|cs| - 1] + [Extended(cs[|cs| - 1])]
    else
      Compacted(cs) + [Block(y, blockLeft, blockRight, outlines, outx, outy)]
  }

  lemma ListMapsAppend(a: seq<CopyPass>, b: seq<CopyPass>, px: int, py: int, sx: int, sy: int)
    ensures ListMaps(a + b, px, py, sx, sy) <==> ListMaps(a, px, py, sx, sy) || ListMaps(b, px, py, sx, sy)
  {
    if ListMaps(a + b, px, py, sx, sy) {
      var i :| 0 <= i < |a + b| && Maps((a + b)[i], px, py, sx, sy);
      if i >= |a| {
        assert Maps(b[i - |a|], px, py, sx, sy);
      } else {
        assert Maps(a[i], px, py, sx, sy);
      }
    }
    if ListMaps(b, px, py, sx, sy) {
      var i :| 0 <= i < |b| && Maps(b[i], px, py, sx, sy);
      assert Maps((a + b)[|a| + i], px, py, sx, sy);
    }
    if ListMaps(a, px, py, sx, sy) {
      var i :| 0 <= i < |a| && Maps(a[i], px, py, sx, sy);
      assert Maps((a + b)[i], px, py, sx, sy);
    }
  }

  lemma ListMapsOne(c: CopyPass, px: int, py: int, sx: int, sy: int)
    ensures ListMaps([c], px, py, sx, sy) <==> Maps(c, px, py, sx, sy)
  {
    if Maps(c, px, py, sx, sy) {
      assert Maps([c][0], px, py, sx, sy);
    }
  }

  /** The grown copy sends exactly what the old one and the block did. */
  lemma ExtendedMaps(c: CopyPass, y: int, blockLeft: int, outlines: nat, outx: nat, outy: nat,
                     px: int, py: int, sx: int, sy: int)
    requires c.rect.Valid()
    requires CanExtend([c], y, blockLeft, outlines, outx, outy)
    ensures Maps(Extended(c), px, py, sx, sy) <==>
      Maps(c, px, py, sx, sy) || Maps(Block(y, blockLeft, blockLeft + ScrollBlockSize, outlines, outx, outy), px, py, sx, sy)
  {
  }

  /** The merged copy sends exactly what the two stacked copies did. */
  lemma StackedMaps(prev: CopyPass, cur: CopyPass, px: int, py: int, sx: int, sy: int)
    requires prev.rect.Valid() && cur.rect.Valid() && CanStack([prev, cur])
    ensures Maps(Stacked(prev, cur), px, py, sx, sy) <==> Maps(prev, px, py, sx, sy) || Maps(cur, px, py, sx, sy)
  {
  }

  lemma CompactedMaps(cs: seq<CopyPass>, px: int, py: int, sx: int, sy: int)
    requires AllValid(cs)
    ensures ListMaps(Compacted(cs), px, py, sx, sy) <==> ListMaps(cs, px, py, sx, sy)
  {
    if CanStack(cs) {
      var n := |cs|;
      var front := cs[..n - 2];
      var prev, cur := cs[n - 2], cs[n - 1];
      assert cs == front + ([prev] + [cur]);
      assert CanStack([prev, cur]);
      StackedMaps(prev, cur, px, py, sx, sy);
      ListMapsAppend(front, [Stacked(prev, cur)], px, py, sx, sy);
      ListMapsOne(Stacked(prev, cur), px, py, sx, sy);
      ListMapsAppend(front, [prev] + [cur], px, py, sx, sy);
      ListMapsAppend([prev], [cur], px, py, sx, sy);
      ListMapsOne(prev, px, py, sx, sy);
      ListMapsOne(cur, px, py, sx, sy);
    }
  }

  /** tryMerge loses nothing and adds nothing: for a 64-pixel block, the
      copies after it send a pixel from a source pixel exactly when the
      copies before it did or the found block does. */
  lemma TryMergedMaps(cs: seq<CopyPass>, y: int, blockLeft: int, outlines: nat, outx: nat, outy: nat,
                      px: int, py: int, sx: int, sy: int)
    requires AllValid(cs)
    ensures var b := Block(y, blockLeft, blockLeft + ScrollBlockSize, outlines, outx, outy);
      ListMaps(TryMerged(cs, y, blockLeft, blockLeft + ScrollBlockSize, outlines, outx, outy), px, py, sx, sy)
      <==> ListMaps(cs, px, py, sx, sy) || Maps(b, px, py, sx, sy)
  {
    var b := Block(y, blockLeft, blockLeft + ScrollBlockSize, outlines, outx, outy);
    var r := TryMerged(cs, y, blockLeft, blockLeft + ScrollBlockSize, outlines, outx, outy);
    if CanExtend(cs, y, blockLeft, outlines, outx, outy) {
      var n := |cs|;
      var last := cs[n - 1];
      assert cs == cs[..n - 1] + [last];
      assert r == cs[..n - 1] + [Extended(last)];
      assert CanExtend([last], y, blockLeft, outlines, outx, outy);
      ExtendedMaps(last, y, blockLeft, outlines, outx, outy, px, py, sx, sy);
      ListMapsAppend(cs[..n - 1], [Extended(last)], px, py, sx, sy);
      ListMapsAppend(cs[..n - 1], [last], px, py, sx, sy);
      ListMapsOne(Extended(last), px, py, sx, sy);
      ListMapsOne(last, px, py, sx, sy);
    } else {
      CompactedMaps(cs, px, py, sx, sy);
      ListMapsAppend(Compacted(cs), [b], px, py, sx, sy);
      ListMapsOne(b, px, py, sx, sy);
    }
  }

  lemma {:induction false} TotalAreaAppend(a: seq<CopyPass>, b: seq<CopyPass>)
    ensures TotalArea(a + b) == TotalArea(a) + TotalArea(b)
    decreases |b|
  {
    if b != [] {
      var n := |b|;
      assert (a + b)[..|a + b| - 1] == a + b[..n - 1];
      TotalAreaAppend(a, b[..n - 1]);
    } else {
      assert a + b == a;
    }
  }

  lemma AreaOne(c: CopyPass)
    ensures TotalArea([c]) == c.rect.Width() * c.rect.Height()
  {
    assert [c][..0] == [];
  }

  /** Merging two stacked copies keeps them well formed and keeps the
      area. */
  lemma CompactedArea(cs: seq<CopyPass>)
    requires AllValid(cs)
    ensures AllValid(Compacted(cs)) && TotalArea(Compacted(cs)) == TotalArea(cs)
  {
    if CanStack(cs) {
      var n := |cs|;
      var front := cs[..n - 2];
      var prev, cur := cs[n - 2], cs[n - 1];
      assert cs == front + [prev, cur];
      TotalAreaAppend(front, [prev, cur]);
      TotalAreaAppend(front, [Stacked(prev, cur)]);
      assert [prev, cur] == [prev] + [cur];
      TotalAreaAppend([prev], [cur]);
      AreaOne(prev);
      AreaOne(cur);
      AreaOne(Stacked(prev, cur));
      assert prev.rect.Width() * (prev.rect.Height() + cur.rect.Height())
          == prev.rect.Width() * prev.rect.Height() + cur.rect.Width() * cur.rect.Height();
    }
  }

  /** Growing the last copy by a block adds the block's area. */
  lemma ExtendedArea(cs: seq<CopyPass>, y: int, blockLeft: int, outlines: nat, outx: nat, outy: nat)
    requires AllValid(cs) && CanExtend(cs, y, blockLeft, outlines, outx, outy)
    ensures var r := cs[..|cs| - 1] + [Extended(cs[|cs| - 1])];
      AllValid(r) && TotalArea(r) == TotalArea(cs) + ScrollBlockSize * outlines
  {
    var n := |cs|;
    var last := cs[n - 1];
    var front := cs[..n - 1];
    assert cs == front + [last];
    TotalAreaAppend(front, [last]);
    TotalAreaAppend(front, [Extended(last)]);
    AreaOne(last);
    AreaOne(Extended(last));
    assert last.rect.Height() == outlines;
    assert (last.rect.Width() + ScrollBlockSize) * outlines == last.rect.Width() * outlines + ScrollBlockSize * outlines;
  }

  /** tryMerge keeps the copies well formed, and the area they cover grows
      by the block's area. */
  lemma TryMergedArea(cs: seq<CopyPass>, y: int, blockLeft: int, outlines: nat, outx: nat, outy: nat)
    requires AllValid(cs)
    ensures var r := TryMerged(cs, y, blockLeft, blockLeft + ScrollBlockSize, outlines, outx, outy);
      AllValid(r) && TotalArea(r) == TotalArea(cs) + ScrollBlockSize * outlines
  {
    if CanExtend(cs, y, blockLeft, outlines, outx, outy) {
      ExtendedArea(cs, y, blockLeft, outlines, outx, outy);
    } else {
      var b := Block(y, blockLeft, blockLeft + ScrollBlockSize, outlines, outx, outy);
      CompactedArea(cs);
      TotalAreaAppend(Compacted(cs), [b]);
      AreaOne(b);
    }
  }

  // ---- the tracker ----

  /** The tracker's flags, the changed region (a set of pixels), and the
      copy list the scroll detection builds. */
  class Tracker {
    var enabled: bool
    var firstCompare: bool
    var changed: set<(int, int)>
    var copyPassRects: seq<CopyPass>

    /** A new tracker is enabled, will take its first copy of the frame on
        the next compare, and counts the whole frame as changed. */
    constructor (frame: set<(int, int)>)
      ensures enabled && firstCompare && changed == frame && copyPassRects == []
    {
      enabled := true;
      firstCompare := true;
      changed := frame;
      copyPassRects := [];
    }

    /** enable() */
    method Enable()
      modifies this
      ensures enabled && firstCompare == old(firstCompare) && changed == old(changed)
      ensures copyPassRects == old(copyPassRects)
    {
      enabled := true;
    }

    /** disable(): also makes the next compare after enable a first one. */
    method Disable()
      modifies this
      ensures !enabled && firstCompare && changed == old(changed) && copyPassRects == old(copyPassRects)
    {
      enabled := false;
      firstCompare := true;
    }

    /** compare(): false while disabled; false on the first compare, which
        only takes the copy of the frame; otherwise true exactly when the
        region the pixel comparison found (the parameter newChanged)
        differs from the changed region, which it then replaces. The copy
        list is rebuilt by the comparison (the parameter found). */
    method Compare(newChanged: set<(int, int)>, found: seq<CopyPass>) returns (r: bool)
      modifies this
      ensures !old(enabled) ==>
        (!r && changed == old(changed) && firstCompare == old(firstCompare) && copyPassRects == old(copyPassRects))
      ensures old(enabled) && old(firstCompare) ==>
        (!r && !firstCompare && changed == old(changed) && copyPassRects == old(copyPassRects))
      ensures old(enabled) && !old(firstCompare) ==>
        (r <==> newChanged != old(changed)) && changed == newChanged && !firstCompare
        && copyPassRects == found
      ensures enabled == old(enabled)
    {
      if !enabled {
        return false;
      }
      if firstCompare {
        firstCompare := false;
        return false;
      }
      copyPassRects := found;
      if changed == newChanged {
        return false;
      }
      changed := newChanged;
      return true;
    }

    /** tryMerge on the tracker's copy list. */
    method TryMerge(y: int, blockLeft: int, blockRight: int, outlines: nat, outx: nat, outy: nat)
      modifies this
      ensures copyPassRects == TryMerged(old(copyPassRects), y, blockLeft, blockRight, outlines, outx, outy)
      ensures enabled == old(enabled) && firstCompare == old(firstCompare) && changed == old(changed)
    {
      var n := |copyPassRects|;
      if n > 0 && CanExtend(copyPassRects, y, blockLeft, outlines, outx, outy) {
        var prev := copyPassRects[n - 1];
        copyPassRects := copyPassRects[..n - 1] + [prev.(rect := prev.rect.(brx := prev.rect.brx + ScrollBlockSize))];
      } else {
        if n > 1 {
          var prev, cur := copyPassRects[n - 2], copyPassRects[n - 1];
          if prev.rect.bry == cur.rect.tly && prev.rect.tlx == cur.rect.tlx && prev.rect.brx == cur.rect.brx
             && prev.srcX == cur.srcX && prev.srcY + prev.rect.Height() == cur.srcY {
            copyPassRects := copyPassRects[..n - 2] + [prev.(rect := prev.rect.(bry := prev.rect.bry + cur.rect.Height()))];
          }
        }
        copyPassRects := copyPassRects + [CopyPass(Rect(blockLeft, y, blockRight, y + outlines), outx, outy)];
      }
    }
  }
}
