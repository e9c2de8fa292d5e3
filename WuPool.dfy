/** The fixed-size block pool WebUDP keeps its clients in: numBlocks slots,
    each a 4-byte header (the slot's own index) followed by blockSize user
    bytes, and a stack of free slot indices. A block is identified by its
    slot index; its user memory starts HeaderSize bytes into the slot. */
module WuPool {
  import opened Wrappers

  /** sizeof(BlockHeader). */
  const HeaderSize: nat := 4

  class Pool {
    var slotSize: int
    var numBlocks: nat
    var freeIndices: array<int>
    var freeCount: nat
    /** The index word stored at the start of each slot. */
    var headers: array<int>
    /** The slots acquired and not yet released. */
    ghost var outstanding: set<int>

    ghost predicate Valid()
      reads this, freeIndices, headers
    {
      freeIndices != headers && freeIndices.Length == numBlocks && headers.Length == numBlocks &&
      freeCount <= numBlocks && freeCount + |outstanding| == numBlocks &&
      (forall i :: 0 <= i < freeCount ==> 0 <= freeIndices[i] < numBlocks) &&
      (forall i, j :: 0 <= i < j < freeCount ==> freeIndices[i] != freeIndices[j]) &&
      (forall k :: k in outstanding <==> 0 <= k < numBlocks && k !in freeIndices[..freeCount]) &&
      (forall k :: k in outstanding ==> headers[k] == k)
    }

    /** The free stack, top last. */
    ghost function FreeStack(): seq<int>
      reads this, freeIndices
      requires freeCount <= freeIndices.Length
    {
      freeIndices[..freeCount]
    }

    /** WuPoolCreate: every slot free, stacked so that slot 0 is on top. */
    constructor Create(blockSize: nat, numBlocks: nat)
      ensures Valid() && fresh(freeIndices) && fresh(headers)
      ensures this.numBlocks == numBlocks && slotSize == blockSize + HeaderSize
      ensures outstanding == {}
      ensures FreeStack() == seq(numBlocks, i => numBlocks - i - 1)
    {
      slotSize := blockSize + HeaderSize;
      this.numBlocks := numBlocks;
      headers := new int[numBlocks];
      freeCount := numBlocks;
      outstanding := {};
      var free := new int[numBlocks];
      for i := 0 to numBlocks
        invariant forall j :: 0 <= j < i ==> free[j] == numBlocks - j - 1
      {
        free[i] := numBlocks - i - 1;
      }
      freeIndices := free;
      new;
      assert freeIndices[..freeCount] == seq(numBlocks, i => numBlocks - i - 1);
      forall k | 0 <= k < numBlocks ensures k in freeIndices[..freeCount] {
        assert freeIndices[numBlocks - k - 1] == k;
      }
    }

    /** WuPoolAcquire: pops the top free slot and stamps its header, or
        returns nothing when every slot is taken. */
    method Acquire() returns (block: Option<int>)
      requires Valid()
      modifies this`freeCount, this`outstanding, headers
      ensures Valid()
      ensures old(freeCount) == 0 ==> block == None && freeCount == 0 && outstanding == old(outstanding)
      ensures old(freeCount) > 0 ==>
        block == Some(old(freeIndices[freeCount - 1])) &&
        freeCount == old(freeCount) - 1 &&
        0 <= block.value < numBlocks && block.value !in old(outstanding) &&
        outstanding == old(outstanding) + {block.value}
    {
      if freeCount == 0 {
        return None;
      }
      var index := freeIndices[freeCount - 1];
      assert freeIndices[..freeCount] == freeIndices[..freeCount - 1] + [index];
      assert index !in freeIndices[..freeCount - 1] by {
        forall i | 0 <= i < freeCount - 1 ensures freeIndices[i] != index { }
      }
      freeCount := freeCount - 1;
      headers[index] := index;
      outstanding := outstanding + {index};
      return Some(index);
    }

    /** WuPoolRelease: pushes the index found in the block's header back on
        the free stack, so the next Acquire returns this block again. */
    method Release(block: int)
      requires Valid() && block in outstanding
      modifies this`freeCount, this`outstanding, freeIndices
      ensures Valid()
      ensures FreeStack() == old(FreeStack()) + [block]
      ensures outstanding == old(outstanding) - {block}
    {
      var index := headers[block];
      assert |outstanding - {block}| == |outstanding| - 1;
      freeIndices[freeCount] := index;
      freeCount := freeCount + 1;
      outstanding := outstanding - {block};
      assert freeIndices[..freeCount] == old(freeIndices[..freeCount]) + [index];
    }
  }
}
