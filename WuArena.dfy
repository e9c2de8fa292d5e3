/** The bump allocator WebUDP uses for per-update scratch memory: a block of
    `capacity` bytes of which the first `length` are handed out. Blocks are
    identified by their byte offset into the arena's memory; the memory's
    contents belong to the callers and are not modelled. */
module WuArena {
  import opened Wrappers

  /** The regions handed out since the last reset tile [0, end) in order. */
  predicate Tiles(regions: seq<(int, int)>, end: int)
    decreases |regions|
  {
    if regions == [] then end == 0
    else
      var last := regions[|regions| - 1];
      last.1 > 0 && last.0 + last.1 == end && Tiles(regions[..|regions| - 1], last.0)
  }

  /** Every region lies inside [0, end). */
  lemma {:induction false} TilesWithin(regions: seq<(int, int)>, end: int, i: nat)
    requires Tiles(regions, end) && i < |regions|
    ensures 0 <= regions[i].0 && regions[i].0 + regions[i].1 <= end
    decreases |regions|
  {
    var last := regions[|regions| - 1];
    var init := regions[..|regions| - 1];
    if i < |regions| - 1 {
      TilesWithin(init, last.0, i);
      assert init[i] == regions[i];
    } else if |init| > 0 {
      TilesWithin(init, last.0, |init| - 1);
    }
  }

  /** Earlier regions end before later ones begin, so no two overlap. */
  lemma {:induction false} TilesDisjoint(regions: seq<(int, int)>, end: int, i: nat, j: nat)
    requires Tiles(regions, end) && i < j < |regions|
    ensures regions[i].0 + regions[i].1 <= regions[j].0
    decreases |regions|
  {
    var last := regions[|regions| - 1];
    var init := regions[..|regions| - 1];
    assert init[i] == regions[i];
    if j < |regions| - 1 {
      TilesDisjoint(init, last.0, i, j);
      assert init[j] == regions[j];
    } else {
      TilesWithin(init, last.0, i);
    }
  }

  class Arena {
    var length: int
    var capacity: int
    /** The (offset, size) of every block handed out since the last reset. */
    ghost var regions: seq<(int, int)>

    ghost predicate Valid()
      reads this
    {
      0 <= length <= capacity && Tiles(regions, length)
    }

    /** WuArenaInit: an empty arena of the given capacity. */
    constructor Init(capacity: nat)
      ensures Valid()
      ensures length == 0 && this.capacity == capacity && regions == []
    {
      length := 0;
      this.capacity := capacity;
      regions := [];
    }

    /** WuArenaAcquire: the next blockSize bytes if they fit, else nothing. */
    method Acquire(blockSize: int) returns (block: Option<int>)
      requires Valid() && blockSize > 0
      modifies this`length, this`regions
      ensures Valid() && capacity == old(capacity)
      ensures old(capacity - length) >= blockSize ==>
        block == Some(old(length)) && length == old(length) + blockSize &&
        regions == old(regions) + [(old(length), blockSize)]
      ensures old(capacity - length) < blockSize ==>
        block == None && length == old(length) && regions == old(regions)
    {
      var remain := capacity - length;
      if remain >= blockSize {
        var m := length;
        regions := regions + [(length, blockSize)];
        assert regions[..|regions| - 1] == old(regions);
        length := length + blockSize;
        return Some(m);
      }
      return None;
    }

    /** WuArenaReset: forgets every block handed out. */
    method Reset()
      requires Valid()
      modifies this`length, this`regions
      ensures Valid() && length == 0 && regions == [] && capacity == old(capacity)
    {
      length := 0;
      regions := [];
    }
  }
}
