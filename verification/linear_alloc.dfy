/** The bump allocator that hands out overflow nodes. */
module LinearAlloc {
  import opened Util
  import opened Entries

  class LinearAllocator {
    var start: Addr
    var cur: Addr
    var availSize: nat
    var mramSize: nat

    ghost predicate Valid()
      reads this
    {
      NULL < start <= cur && cur + availSize == start + mramSize && start + mramSize < U32_LIMIT
    }

    constructor (start: Addr, size: nat)
      requires NULL < start && start + size < U32_LIMIT
      ensures Valid() && this.start == cur == start && availSize == mramSize == size
    {
      this.start := start;
      cur := start;
      availSize := size;
      mramSize := size;
    }

    method Reset()
      requires Valid()
      modifies this`cur, this`availSize
      ensures Valid() && cur == start && availSize == mramSize
    {
      cur := start;
      availSize := mramSize;
    }

    /** A fresh range of the rounded size past everything handed out before, or NULL
        and no change when it does not fit. */
    method Alloc(size: nat) returns (ptr: Addr)
      requires Valid() && size < U32_LIMIT - 8
      modifies this`cur, this`availSize
      ensures Valid()
      ensures old(availSize) < Align8(size) ==> ptr == NULL && cur == old(cur) && availSize == old(availSize)
      ensures old(availSize) >= Align8(size) ==>
                ptr == old(cur) && ptr != NULL && ptr + size <= cur <= start + mramSize
                && cur == old(cur) + Align8(size) && availSize == old(availSize) - Align8(size)
    {
      var rounded := size;
      if rounded % 8 != 0 {
        rounded := (rounded / 8 + 1) * 8;
      }
      if availSize < rounded {
        return NULL;
      }
      ptr := cur;
      cur := cur + rounded;
      availSize := availSize - rounded;
    }

    /** Freeing does nothing: nodes of deleted records are never reused. */
    method Free(ptr: Addr)
      requires Valid()
      ensures Valid()
    {
      return;
    }
  }
}
