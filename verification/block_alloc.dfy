/** The block allocator: a space of equal blocks whose use a cached bitmap records. */
module BlockAlloc {
  import opened Util
  import opened Entries
  import opened Bitmap
  import opened Words

  /** Number of clear bits among the first n. */
  ghost function CountClear(ws: seq<Word>, n: nat): (c: nat)
    ensures c <= n
  {
    if n == 0 then 0 else CountClear(ws, n - 1) + if BitAt(ws, n - 1) then 0 else 1
  }

  lemma {:induction false} CountChanged(before: seq<Word>, after: seq<Word>, i: nat, value: bool, n: nat)
    requires Changed(before, after, i, value) && BitAt(before, i) != value
    ensures CountClear(after, n) == CountClear(before, n) + if i >= n then 0 else if value then -1 else 1
  {
    if n > 0 { CountChanged(before, after, i, value, n - 1); }
  }

  lemma {:induction false} CountZero(ws: seq<Word>, n: nat)
    requires CountClear(ws, n) == 0
    ensures forall i :: 0 <= i < n ==> BitAt(ws, i)
  {
    if n > 0 { CountZero(ws, n - 1); }
  }

  lemma {:induction false} CountAll(ws: seq<Word>, n: nat, value: bool)
    requires forall i :: 0 <= i < n ==> BitAt(ws, i) == value
    ensures CountClear(ws, n) == if value then 0 else n
  {
    if n > 0 { CountAll(ws, n - 1, value); }
  }

  // --- Layout -------------------------------------------------------------------------------

  datatype Plan = Plan(start: Addr, size: nat)

  /** Number of whole blocks in n bytes. */
  function Whole(n: nat, blockSize: nat): (q: nat)
    requires blockSize > 0
    ensures q <= n && q * blockSize <= n < (q + 1) * blockSize
  {
    DivTimes(n, blockSize);
    n / blockSize
  }

  /** First block and number of blocks in a region whose bitmap lies at its beginning; 32-bit subtraction. */
  function PlanOf(start: Addr, mramSize: nat, blockSize: nat): Option<Plan>
    requires blockSize > 0
  {
    var bitmapSize := BitmapDpuSize(Whole(mramSize, blockSize));
    if mramSize < bitmapSize then None
    else Some(Plan(start + Align8(bitmapSize), Whole(Wrap(mramSize - Align8(bitmapSize)), blockSize)))
  }

  lemma RoundedBitmapFits(mramSize: nat, bits: nat)
    requires bits <= mramSize && BitmapDpuSize(bits) <= mramSize
    ensures Align8(BitmapDpuSize(bits)) <= mramSize
  {
    if bits < 40 {
      assert bits / 32 <= 1;
    } else {
      assert Align8(BitmapDpuSize(bits)) <= BITMAP_HEADER + 4 * (bits / 32 + 1) + 7;
    }
  }

  lemma DivTimes(n: nat, d: nat)
    requires d > 0
    ensures n / d <= n && n / d * d <= n < (n / d + 1) * d
  {
    assert n == d * (n / d) + n % d;
    MulAtMost(n / d, d);
    assert (n / d + 1) * d == d * (n / d) + d;
  }

  lemma MulAtMost(q: nat, d: nat)
    requires d > 0
    ensures q <= d * q
  {
    assert d * q == (d - 1) * q + q;
    assert (d - 1) * q >= 0;
  }

  lemma WrapSmall(n: nat)
    requires n < U32_LIMIT
    ensures Wrap(n) == n
  {
  }

  lemma PlanIs(start: Addr, mramSize: nat, blockSize: nat)
    requires blockSize > 0 && mramSize < U32_LIMIT && PlanOf(start, mramSize, blockSize).Some?
    ensures Reserved(mramSize, blockSize) <= mramSize
    ensures PlanOf(start, mramSize, blockSize) ==
            Some(Plan(start + Reserved(mramSize, blockSize), BlockCount(mramSize, blockSize)))
  {
    hide BitmapDpuSize, Align8, Wrap, Whole;
    RoundedBitmapFits(mramSize, Whole(mramSize, blockSize));
    WrapSmall(mramSize - Align8(BitmapDpuSize(Whole(mramSize, blockSize))));
  }

  lemma WholeMonotone(n: nat, m: nat, blockSize: nat)
    requires n <= m && blockSize > 0
    ensures Whole(n, blockSize) <= Whole(m, blockSize)
  {
    DivMonotone(n, m, blockSize);
  }

  lemma ReservedBounds(mramSize: nat, blockSize: nat)
    requires blockSize > 0
    ensures BITMAP_HEADER <= BitmapDpuSize(Whole(mramSize, blockSize)) <= Reserved(mramSize, blockSize)
  {
    hide Whole, ReservedWords;
  }

  /** A region that is accepted holds the rounded bitmap and all its blocks: comparing with the unrounded bitmap
      size is enough, and the 32-bit subtraction never wraps. */
  lemma PlanFits(start: Addr, mramSize: nat, blockSize: nat)
    requires blockSize > 0 && mramSize < U32_LIMIT && PlanOf(start, mramSize, blockSize).Some?
    ensures var plan := PlanOf(start, mramSize, blockSize).value;
            start + BitmapDpuSize(Whole(mramSize, blockSize)) <= plan.start
            && plan.start + plan.size * blockSize <= start + mramSize
            && plan.size <= Whole(mramSize, blockSize)
  {
    hide BitmapDpuSize, Align8, PlanOf, Whole, Reserved;
    PlanIs(start, mramSize, blockSize);
    ReservedBounds(mramSize, blockSize);
    WholeMonotone(mramSize - Reserved(mramSize, blockSize), mramSize, blockSize);
  }

  /** A region is refused exactly when it cannot hold the bitmap's header of 24 bytes. */
  lemma RefusedIff(start: Addr, mramSize: nat, blockSize: nat)
    requires blockSize > 0
    ensures PlanOf(start, mramSize, blockSize).None? <==> mramSize < 24
  {
    hide Whole, Align8;
    ReservedAtMost(Whole(mramSize, blockSize));
  }

  lemma ReservedAtMost(bits: nat)
    ensures BITMAP_HEADER == 24 && BitmapDpuSize(bits) >= 24 && (bits >= 24 ==> BitmapDpuSize(bits) <= bits + 4)
    ensures bits < 32 ==> BitmapDpuSize(bits) == 24
    ensures bits >= 32 ==> BitmapDpuSize(bits) <= bits
  {
  }

  /** An accepted region in numbers: the bitmap's header and the words reserved, rounded up to pairs, come first, and
      then as many blocks as fit. */
  lemma PlanInNumbers(start: Addr, mramSize: nat, blockSize: nat) returns (first: nat, size: nat)
    requires blockSize > 0 && 24 <= mramSize < U32_LIMIT
    ensures var share := mramSize / blockSize / 32;
            var words := if share % 32 != 0 then share + 1 else share;
            first == 24 + 4 * (words + words % 2)
    ensures PlanOf(start, mramSize, blockSize) == Some(Plan(start + first, size))
    ensures first + size * blockSize <= mramSize < first + (size + 1) * blockSize
  {
    hide PlanOf, Whole, Align8, Reserved, RoomForWords, BlockCount;
    RefusedIff(start, mramSize, blockSize);
    PlanIs(start, mramSize, blockSize);
    ReservedIs(mramSize, blockSize);
    RoomInNumbers(mramSize, blockSize);
    BlocksFill(mramSize, blockSize);
    first, size := Reserved(mramSize, blockSize), BlockCount(mramSize, blockSize);
  }

  lemma BlocksFill(mramSize: nat, blockSize: nat)
    requires blockSize > 0 && Reserved(mramSize, blockSize) <= mramSize
    ensures var size := BlockCount(mramSize, blockSize);
            Reserved(mramSize, blockSize) + size * blockSize <= mramSize < Reserved(mramSize, blockSize)
              + (size + 1) * blockSize
  {
    hide Reserved, Whole;
  }

  lemma RoomInNumbers(mramSize: nat, blockSize: nat)
    requires blockSize > 0
    ensures var share := mramSize / blockSize / 32;
            var words := if share % 32 != 0 then share + 1 else share;
            RoomForWords(mramSize, blockSize) == words + words % 2
  {
  }

  lemma PlanBounds(start: Addr, mramSize: nat, blockSize: nat)
    requires blockSize > 0 && mramSize < U32_LIMIT && PlanOf(start, mramSize, blockSize).Some?
    ensures var plan := PlanOf(start, mramSize, blockSize).value; plan.start > NULL && plan.size * blockSize < U32_LIMIT
  {
    hide PlanOf, Align8, Whole, Reserved;
    PlanIs(start, mramSize, blockSize);
    ReservedBounds(mramSize, blockSize);
  }

  // --- The bitmap's words and the blocks ----------------------------------------------------

  /** Address of the w-th word of the bitmap at the beginning of a region. */
  function WordAddr(start: Addr, w: nat): Addr {
    start + BITMAP_HEADER + 4 * w
  }

  /** Bytes between a region's beginning and its first block. */
  function Reserved(mramSize: nat, blockSize: nat): nat
    requires blockSize > 0
  {
    Align8(BitmapDpuSize(Whole(mramSize, blockSize)))
  }

  /** Number of blocks of an accepted region. */
  function BlockCount(mramSize: nat, blockSize: nat): nat
    requires blockSize > 0
  {
    if Reserved(mramSize, blockSize) <= mramSize then Whole(mramSize - Reserved(mramSize, blockSize), blockSize) else 0
  }

  /** Words between the bitmap's header and the first block: those reserved, rounded up to pairs. */
  function RoomForWords(mramSize: nat, blockSize: nat): nat
    requires blockSize > 0
  {
    var reserved := ReservedWords(Whole(mramSize, blockSize));
    reserved + reserved % 2
  }

  lemma ReservedIs(mramSize: nat, blockSize: nat)
    requires blockSize > 0
    ensures Reserved(mramSize, blockSize) == BITMAP_HEADER + 4 * RoomForWords(mramSize, blockSize)
  {
    hide Whole, ReservedWords;
    Align8Is(ReservedWords(Whole(mramSize, blockSize)));
  }

  lemma Align8Is(words: nat)
    ensures Align8(BITMAP_HEADER + 4 * words) == BITMAP_HEADER + 4 * (words + words % 2)
  {
  }

  /** The words that hold the blocks' bits are no more than there is room for. */
  predicate BitsBeforeBlocks(mramSize: nat, blockSize: nat)
    requires blockSize > 0
  {
    MapSize(BlockCount(mramSize, blockSize)) <= RoomForWords(mramSize, blockSize)
  }

  /** The words of whole windows over the blocks' bits are no more than there is room for. */
  predicate WindowsBeforeBlocks(mramSize: nat, blockSize: nat)
    requires blockSize > 0
  {
    WindowWords(BlockCount(mramSize, blockSize)) <= RoomForWords(mramSize, blockSize)
  }

  /** In an accepted region the words of all blocks' bits lie before the first block exactly when the words reserved
      for more bits, computed too few and rounded up to pairs, are enough for the blocks. */
  lemma BitsClearOfBlocksIff(start: Addr, mramSize: nat, blockSize: nat)
    requires blockSize > 0 && mramSize < U32_LIMIT && PlanOf(start, mramSize, blockSize).Some?
    ensures var plan := PlanOf(start, mramSize, blockSize).value;
            BitsBeforeBlocks(mramSize, blockSize) <==>
            forall i :: 0 <= i < plan.size ==> WordAddr(start, i / 32) + 4 <= plan.start
  {
    hide PlanOf, Reserved, BlockCount, RoomForWords;
    PlanIs(start, mramSize, blockSize);
    ReservedIs(mramSize, blockSize);
    var n := BlockCount(mramSize, blockSize);
    if n > 0 {
      assert MapSize(n) == (n - 1) / 32 + 1;
      if BitsBeforeBlocks(mramSize, blockSize) {
        forall i | 0 <= i < n ensures i / 32 <= (n - 1) / 32 {}
      } else {
        assert WordAddr(start, (n - 1) / 32) + 4 > start + Reserved(mramSize, blockSize);
      }
    }
  }

  /** In an accepted region every word a window move or a save writes lies before the first block exactly when
      there is room for whole windows; the first window is written even without blocks. */
  lemma WindowsClearOfBlocksIff(start: Addr, mramSize: nat, blockSize: nat)
    requires blockSize > 0 && mramSize < U32_LIMIT && PlanOf(start, mramSize, blockSize).Some?
    ensures var plan := PlanOf(start, mramSize, blockSize).value;
            WindowsBeforeBlocks(mramSize, blockSize) <==>
            forall w :: 0 <= w < WindowWords(plan.size) ==> WordAddr(start, w) + 4 <= plan.start
  {
    hide PlanOf, Reserved, BlockCount, RoomForWords;
    PlanIs(start, mramSize, blockSize);
    ReservedIs(mramSize, blockSize);
    if !WindowsBeforeBlocks(mramSize, blockSize) {
      assert WordAddr(start, WindowWords(BlockCount(mramSize, blockSize)) - 1) + 4 > start
             + Reserved(mramSize, blockSize);
    }
  }

  /** A region of 65920 bytes is accepted with 1027 blocks of 64, and the word of the last three blocks' bits is the
      first word of block 0. */
  lemma BitsUnderBlockZero(start: Addr)
    ensures PlanOf(start, 65920, 64) == Some(Plan(start + 152, 1027))
    ensures !BitsBeforeBlocks(65920, 64) && WordAddr(start, 1024 / 32) == start + 152
  {
  }

  /** A region of 40000 bytes holds the bits of its 623 blocks of 64, but its only window reaches past the start
      of block 0. */
  lemma WindowUnderBlockZero(start: Addr)
    ensures PlanOf(start, 40000, 64) == Some(Plan(start + 104, 623))
    ensures BitsBeforeBlocks(40000, 64) && !WindowsBeforeBlocks(40000, 64)
  {
  }

  // --- The allocator ------------------------------------------------------------------------

  /** The C value of an unsigned quotient stored in a signed 32-bit block id. */
  function AsBlockId(n: nat): int {
    if n < TOP_BIT then n else n - U32_LIMIT
  }

  /** Number of the block an address lies in; addresses before the first block wrap around. */
  function BlockIdOf(start: Addr, blockSize: nat, addr: Addr): int
    requires blockSize > 0
  {
    AsBlockId(Wrap(addr - start) / blockSize)
  }

  /** Address of a block, or NULL. */
  function BlockAddrOf(start: Addr, size: nat, blockSize: nat, id: int): Addr {
    if id < 0 || id >= size then NULL else start + id * blockSize
  }

  /** Every address inside a block has that block's id: the id inverts the address. */
  lemma BlockIdInvertsAddr(start: Addr, size: nat, blockSize: nat, id: nat, offset: nat)
    requires blockSize > 0 && id < size && offset < blockSize && size <= TOP_BIT && size * blockSize < U32_LIMIT
    ensures BlockIdOf(start, blockSize, BlockAddrOf(start, size, blockSize, id) + offset) == id
  {
    BlocksApart(start, size, blockSize, id, size);
    WrapSmall(id * blockSize + offset);
    ModUnique(id * blockSize + offset, blockSize, id, offset);
  }

  /** An address before the first block has no block's id, so freeing it frees nothing. */
  lemma BeforeTheBlocks(start: Addr, size: nat, blockSize: nat, addr: Addr)
    requires blockSize > 0 && addr < start && start + size * blockSize < TOP_BIT && size * blockSize < TOP_BIT
    ensures !(0 <= BlockIdOf(start, blockSize, addr) < size)
  {
    WrapNegative(addr - start);
    hide Wrap;
    FarAway(Wrap(addr - start), size, blockSize);
  }

  lemma WrapNegative(n: int)
    requires -0x8000_0000 <= n < 0
    ensures Wrap(n) == 0x1_0000_0000 + n
  {
  }

  lemma FarAway(n: nat, size: nat, blockSize: nat)
    requires blockSize > 0 && size * blockSize <= n
    ensures n / blockSize >= size
  {
    var rest := n - size * blockSize;
    assert rest == blockSize * (rest / blockSize) + rest % blockSize;
    assert n == blockSize * (size + rest / blockSize) + rest % blockSize;
    ModUnique(n, blockSize, size + rest / blockSize, rest % blockSize);
  }

  /** A block ends before any later block begins, and no block lies at NULL. */
  lemma BlocksApart(start: Addr, size: nat, blockSize: nat, i: nat, j: nat)
    requires i < j <= size
    ensures BlockAddrOf(start, size, blockSize, i) == start + i * blockSize
    ensures start + i * blockSize + blockSize <= start + j * blockSize
  {
    assert (j - i - 1) * blockSize >= 0;
    assert j * blockSize == i * blockSize + blockSize + (j - i - 1) * blockSize;
  }

  // --- Runs ---------------------------------------------------------------------------------

  datatype Event = Allocated(id: nat) | Freed(id: nat)

  /** What one allocation or one free does to the bits, as the allocator's methods promise it. */
  ghost predicate Does(size: nat, before: seq<Word>, e: Event, after: seq<Word>) {
    match e
    case Allocated(id) => id < size && !BitAt(before, id) && (forall i :: 0 <= i < id ==> BitAt(before, i))
         && Changed(before, after, id, true)
    case Freed(id) => if id < size && BitAt(before, id) then Changed(before, after, id, false) else after == before
  }

  ghost predicate IsBlockRun(size: nat, views: seq<seq<Word>>, events: seq<Event>) {
    |views| == |events| + 1 && forall i :: 0 <= i < |events| ==> Does(size, views[i], events[i], views[i + 1])
  }

  lemma {:induction false} StaysUsed(size: nat, views: seq<seq<Word>>, events: seq<Event>, i: nat, j: nat)
    requires IsBlockRun(size, views, events) && i < j <= |events| && events[i].Allocated?
    requires forall k :: i < k < j ==> events[k] != Freed(events[i].id)
    ensures BitAt(views[j], events[i].id)
  {
    hide BitAt;
    if j > i + 1 { StaysUsed(size, views, events, i, j - 1); }
    assert Does(size, views[j - 1], events[j - 1], views[j]);
  }

  /** In every run of allocations and frees, a block handed out twice was freed in between. */
  lemma NoLiveBlockTwice(size: nat, views: seq<seq<Word>>, events: seq<Event>, i: nat, j: nat)
    requires IsBlockRun(size, views, events) && i < j < |events|
    requires events[i].Allocated? && events[j] == events[i]
    ensures exists k :: i < k < j && events[k] == Freed(events[i].id)
  {
    hide BitAt;
    assert Does(size, views[j], events[j], views[j + 1]);
    if forall k :: i < k < j ==> events[k] != Freed(events[i].id) { StaysUsed(size, views, events, i, j); }
  }

  class BlockAllocator {
    const cache: BitmapCache
    const start: Addr
    const size: nat
    const blockSize: nat
    var avail: nat

    ghost predicate Valid()
      reads this, cache, cache.bitmap, cache.bitmap.words, cache.window
    {
      && cache.Valid() && cache.HeadOk() && cache.head.size == size
      && NULL < start && blockSize > 0 && size <= TOP_BIT && size * blockSize < U32_LIMIT
      && avail == CountClear(cache.Words(), size)
    }

    /** Block i is in use. */
    ghost predicate Used(i: nat)
      requires Valid()
      reads this, cache, cache.bitmap, cache.bitmap.words, cache.window
    {
      BitAt(cache.Words(), i)
    }

    /** Takes over a region of at least 24 bytes, its bitmap at the region's beginning: all blocks are free. Blocks
        have the requested size rounded up to a power of two. That the bitmap refuses more blocks than it can hold is
        ignored: the allocator then works on whatever bitmap lay there. */
    constructor (bitmap: BitmapDpu, regionStart: Addr, mramSize: nat, requested: nat, ghost power: nat)
      requires mramSize < U32_LIMIT && requested <= TOP_BIT && LeastPow2(requested, power)
      requires mramSize >= 24
      requires WindowsBeforeBlocks(mramSize, power)
      requires bitmap.words.Length >= WindowWords(BlockCount(mramSize, power))
      requires BlockCount(mramSize, power) > BITMAP_SIZE_MAX ==> bitmap.WindowsFit()
      modifies bitmap, bitmap.words
      ensures avail == size
      ensures size <= BITMAP_SIZE_MAX ==> Valid() && forall i :: 0 <= i < size ==> !Used(i)
      ensures size > BITMAP_SIZE_MAX ==>
                cache.Valid() && cache.head == old(bitmap.head) && cache.Words() == old(bitmap.words[..])
      ensures PlanOf(regionStart, mramSize, power) == Some(Plan(start, size)) && blockSize == power
      ensures fresh(cache) && cache.bitmap == bitmap && fresh(cache.window)
    {
      hide PlanOf, BitAt, Whole, Reserved, BlockCount, WindowWords, InitWords, MapSize, WindowsBeforeBlocks,
           BitmapDpuSize, Meets, Mask,
           CountClear;
      var bs := NextPower(requested);
      LeastPow2Unique(requested, bs, power);
      RefusedIff(regionStart, mramSize, bs);
      PlanIs(regionStart, mramSize, bs);
      var plan := PlanOf(regionStart, mramSize, bs).value;
      PlanBounds(regionStart, mramSize, bs);
      WindowBounds(plan.size);
      var st := bitmap.Init(plan.size);
      cache := new BitmapCache(bitmap);
      start := plan.start;
      size := plan.size;
      blockSize := bs;
      avail := plan.size;
      new;
      if st == Ok { CountAll(cache.Words(), size, false); }
    }

    lemma LowestIsFree()
      requires Valid() && avail > 0
      ensures cache.head.firstAvail < size && !Used(cache.head.firstAvail)
      ensures forall i :: 0 <= i < cache.head.firstAvail ==> Used(i)
    {
      if cache.head.firstAvail == size { CountAll(cache.Words(), size, true); }
    }

    /** Hands out the lowest free block, or NULL when none is free. */
    method Alloc() returns (addr: Addr)
      requires Valid()
      modifies this`avail, cache`head, cache`mapOffset, cache`modified, cache.window, cache.bitmap.words
      ensures Valid()
      ensures addr == NULL <==> forall i :: 0 <= i < size ==> old(Used(i))
      ensures addr == NULL ==> cache.Words() == old(cache.Words()) && avail == old(avail)
      ensures addr != NULL ==>
                exists id: nat :: id < size && addr == start + id * blockSize
                  && !old(Used(id)) && (forall i :: 0 <= i < id ==> old(Used(i)))
                  && Changed(old(cache.Words()), cache.Words(), id, true)
                  && avail == old(avail) - 1
                  && Does(size, old(cache.Words()), Allocated(id), cache.Words())
    {
      hide BitAt, Changed, Meets, Mask, WindowWords;
      ghost var before := cache.Words();
      if avail == 0 {
        CountZero(before, size);
        return NULL;
      }
      LowestIsFree();
      var id := cache.head.firstAvail;
      var st := cache.Set(id);
      CountChanged(before, cache.Words(), id, true, size);
      avail := avail - 1;
      addr := BlockAddrOf(start, size, blockSize, id);
      BlocksApart(start, size, blockSize, id, size);
    }

    /** Frees a block by id; an id that is no block's, or that of a free block, changes nothing. */
    method BlockFree(id: int)
      requires Valid()
      modifies this`avail, cache`head, cache`mapOffset, cache`modified, cache.window, cache.bitmap.words
      ensures Valid()
      ensures 0 <= id < size && old(Used(id)) ==>
              Changed(old(cache.Words()), cache.Words(), id, false) && avail == old(avail) + 1
      ensures !(0 <= id < size && old(Used(id))) ==> cache.Words() == old(cache.Words()) && avail == old(avail)
      ensures 0 <= id ==> Does(size, old(cache.Words()), Freed(id), cache.Words())
    {
      hide BitAt, WindowWords, Meets, Mask;
      ghost var before := cache.Words();
      if id >= 0 {
        var st := cache.Clear(id);
        if st == Ok {
          CountChanged(before, cache.Words(), id, false, size);
          avail := avail + 1;
        }
      }
    }

    /** Frees the block an address lies in. */
    method Free(addr: Addr)
      requires Valid()
      modifies this`avail, cache`head, cache`mapOffset, cache`modified, cache.window, cache.bitmap.words
      ensures Valid()
      ensures var id := BlockIdOf(start, blockSize, addr);
              if 0 <= id < size && old(Used(id)) then Changed(old(cache.Words()), cache.Words(), id, false)
                && avail == old(avail) + 1
              else cache.Words() == old(cache.Words()) && avail == old(avail)
    {
      BlockFree(BlockIdOf(start, blockSize, addr));
    }
  }
}
