/** How a DPU's primary-index space is cut into 32 slots of bucket heads. */
module IndexLayout {
  import opened Util
  import opened Entries

  const MAX_INDEXES: nat := 32

  /** The largest power of two that is at most n. */
  function Pow2Floor(n: nat): (r: nat)
    requires n >= 1
    ensures 1 <= r <= n
  {
    if n == 1 then 1 else 2 * Pow2Floor(n / 2)
  }

  lemma {:induction false} Pow2FloorIsLargest(n: nat)
    requires n >= 1
    ensures IsPow2(Pow2Floor(n)) && n < 2 * Pow2Floor(n)
    ensures forall k: nat :: Pow2(k) <= n <==> Pow2(k) <= Pow2Floor(n)
  {
    if n == 1 {
      assert Pow2(0) == 1;
    } else {
      Pow2FloorIsLargest(n / 2);
      var e: nat :| Pow2Floor(n / 2) == Pow2(e);
      assert Pow2Floor(n) == Pow2(e + 1);
    }
    var e: nat :| Pow2Floor(n) == Pow2(e);
    assert n < Pow2(e + 1);
    forall k: nat ensures Pow2(k) <= n <==> Pow2(k) <= Pow2Floor(n) {
      if k <= e { Pow2Monotone(k, e); } else { Pow2Monotone(e + 1, k); }
    }
  }

  function EntriesPerSlot(spaceSize: nat): nat {
    spaceSize / MAX_INDEXES / ENTRY_SIZE
  }

  predicate SpaceOk(spaceAddr: Addr, spaceSize: nat) {
    spaceAddr >= ENTRY_SIZE && EntriesPerSlot(spaceSize) >= 1 && (MAX_INDEXES - 1) * spaceSize < U32_LIMIT
  }

  /** Buckets per index: the largest power of two that fits a slot. */
  function BucketsPerIndex(spaceSize: nat): (r: nat)
    requires EntriesPerSlot(spaceSize) >= 1
    ensures r >= 1
  {
    Pow2Floor(EntriesPerSlot(spaceSize))
  }

  function SlotBase(spaceAddr: Addr, spaceSize: nat, slot: nat): Addr {
    spaceAddr + slot * spaceSize / MAX_INDEXES
  }

  /** Address of the i-th entry of the array at `base`. */
  function EntryAt(base: Addr, i: nat): Addr {
    base + ENTRY_SIZE * i
  }

  /** Halving the power of two above n + 1 gives the largest one that is at most n. */
  method SizeBuckets(spaceSize: nat) returns (size: nat)
    requires EntriesPerSlot(spaceSize) >= 1 && spaceSize < U32_LIMIT
    ensures size == BucketsPerIndex(spaceSize)
  {
    var n := EntriesPerSlot(spaceSize);
    assert n + 1 <= TOP_BIT;
    var p := NextPower(n + 1);
    size := p / 2;
    Pow2FloorIsLargest(n);
    var e: nat :| Pow2Floor(n) == Pow2(e);
    var k: nat :| p == Pow2(k);
    assert p <= Pow2(e + 1);
    if k <= e { Pow2Monotone(k, e); }
    Pow2Monotone(e + 1, k);
  }

  /** The bucket array of one slot ends before the next slot's begins. */
  lemma SlotsDisjoint(spaceAddr: Addr, spaceSize: nat, slot: nat, other: nat)
    requires EntriesPerSlot(spaceSize) >= 1 && slot < other
    ensures SlotBase(spaceAddr, spaceSize, slot) + ENTRY_SIZE * BucketsPerIndex(spaceSize) <=
            SlotBase(spaceAddr, spaceSize, other)
  {
    SlotFits(spaceSize);
    StepMonotone(slot + 1, other, spaceSize);
    StepGrows(slot, spaceSize);
  }

  lemma SlotFits(spaceSize: nat)
    requires EntriesPerSlot(spaceSize) >= 1
    ensures ENTRY_SIZE * BucketsPerIndex(spaceSize) <= spaceSize / MAX_INDEXES
  {
  }

  lemma StepGrows(slot: nat, spaceSize: nat)
    ensures slot * spaceSize / MAX_INDEXES + spaceSize / MAX_INDEXES <= (slot + 1) * spaceSize / MAX_INDEXES
  {
    var x := slot * spaceSize;
    assert (slot + 1) * spaceSize == x + spaceSize;
  }

  lemma StepMonotone(a: nat, b: nat, spaceSize: nat)
    requires a <= b
    ensures a * spaceSize / MAX_INDEXES <= b * spaceSize / MAX_INDEXES
  {
    assert (b - a) * spaceSize >= 0;
    DivMonotone(a * spaceSize, b * spaceSize, MAX_INDEXES);
  }

  /** Bucket arrays of all 32 slots stay inside the space. */
  lemma SlotsInside(spaceAddr: Addr, spaceSize: nat, slot: nat)
    requires EntriesPerSlot(spaceSize) >= 1 && slot < MAX_INDEXES
    ensures spaceAddr <= SlotBase(spaceAddr, spaceSize, slot)
    ensures SlotBase(spaceAddr, spaceSize, slot) + ENTRY_SIZE * BucketsPerIndex(spaceSize) <= spaceAddr + spaceSize
  {
    SlotsDisjoint(spaceAddr, spaceSize, slot, MAX_INDEXES);
  }

  lemma SlotBaseBound(spaceAddr: Addr, spaceSize: nat, slot: nat)
    requires slot <= MAX_INDEXES
    ensures spaceAddr <= SlotBase(spaceAddr, spaceSize, slot) <= spaceAddr + spaceSize
  {
    StepMonotone(slot, MAX_INDEXES, spaceSize);
  }

  lemma SlotBounds(spaceAddr: Addr, spaceSize: nat, slot: nat)
    requires SpaceOk(spaceAddr, spaceSize) && slot < MAX_INDEXES
    ensures ENTRY_SIZE <= SlotBase(spaceAddr, spaceSize, slot)
    ensures SlotBase(spaceAddr, spaceSize, slot) + ENTRY_SIZE * BucketsPerIndex(spaceSize) <=
            SlotBase(spaceAddr, spaceSize, slot + 1)
    ensures SlotBase(spaceAddr, spaceSize, slot + 1) <= spaceAddr + spaceSize
  {
    SlotBaseBound(spaceAddr, spaceSize, slot);
    SlotBaseBound(spaceAddr, spaceSize, slot + 1);
    SlotsDisjoint(spaceAddr, spaceSize, slot, slot + 1);
  }

  /** Indexes lie one after the other in the list of all buckets of a DPU. */
  function BucketAt(slot: nat, size: nat, local: nat): nat {
    slot * size + local
  }

  lemma BucketAtBounds(slot: nat, size: nat, local: nat, n: nat)
    requires slot < n && local < size
    ensures BucketAt(slot, size, local) < n * size
    ensures BucketAt(slot, size, local) % size == local && BucketAt(slot, size, local) / size == slot
  {
    ProductGrows(slot, n, size);
    ModUnique(BucketAt(slot, size, local), size, slot, local);
  }

  lemma ProductMonotone(a: nat, b: nat, m: nat)
    requires a <= b
    ensures a * m <= b * m
  {
    assert (b - a) * m >= 0;
  }

  lemma ProductGrows(a: nat, b: nat, m: nat)
    requires a < b
    ensures a * m + m <= b * m
  {
    ProductMonotone(a + 1, b, m);
    assert (a + 1) * m == a * m + m;
  }

  lemma SomePowers()
    ensures Pow2(12) == 4096 && Pow2(13) == 8192 && Pow2(14) == 16384
  {
    assert Pow2(4) == 16;
    assert Pow2(8) == 256;
  }

  /** The space a DPU really sets aside meets these demands and gives 8192 buckets an index. */
  lemma ActualSpace()
    ensures SpaceOk(0x2000000, 0x1000000) && BucketsPerIndex(0x1000000) == 8192
  {
    hide Pow2, Pow2Floor;
    assert EntriesPerSlot(0x1000000) == 13107;
    Pow2FloorIsLargest(13107);
    SomePowers();
    var e: nat :| Pow2Floor(13107) == Pow2(e);
    if e < 13 { Pow2Monotone(e, 12); }
    if e > 13 { Pow2Monotone(14, e); }
  }

  /** In that space slot s begins 0x80000 times s behind the beginning. */
  lemma ActualSlots(s: nat)
    ensures SlotBase(0x2000000, 0x1000000, s) == 0x2000000 + 0x80000 * s
  {
    assert s * 0x1000000 == 32 * (0x80000 * s);
  }
}
