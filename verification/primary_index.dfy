/** The primary indexes of one DPU, run by one caller at a time. */
module PrimaryIndex {
  import opened Util
  import opened Entries
  import opened BucketSpec
  import opened ChainHeap
  import opened IndexLayout
  import opened LinearAlloc
  import opened IndexOps

  datatype IndexDesc = IndexDesc(id: int, bucketsSize: nat, sizemask: nat, used: nat, buckets: Addr)

  const EMPTY_ENTRY: Entry :=
    Entry([0, 0, 0, 0, 0, 0, 0, 0, 0, 0, 0, 0, 0, 0, 0, 0], 0, NULL, Metadata(0, 0), 0)

  /** Number of records in the `n` buckets starting at `from`. */
  ghost function CountRecs(recs: seq<seq<Rec>>, from: nat, n: nat): nat
    requires from + n <= |recs|
  {
    if n == 0 then 0 else CountRecs(recs, from, n - 1) + |recs[from + n - 1]|
  }

  lemma {:induction false} CountUpdate(recs: seq<seq<Rec>>, from: nat, n: nat, b: nat, c: seq<Rec>)
    requires from + n <= |recs| && b < |recs|
    ensures CountRecs(recs[b := c], from, n) ==
            CountRecs(recs, from, n) + if from <= b < from + n then |c| - |recs[b]| else 0
  {
    if n > 0 { CountUpdate(recs, from, n - 1, b, c); }
  }

  lemma {:induction false} CountAppend(recs: seq<seq<Rec>>, more: seq<seq<Rec>>, from: nat, n: nat)
    requires from + n <= |recs|
    ensures CountRecs(recs + more, from, n) == CountRecs(recs, from, n)
  {
    if n > 0 { CountAppend(recs, more, from, n - 1); }
  }

  lemma {:induction false} CountEmpty(recs: seq<seq<Rec>>, from: nat, n: nat)
    requires from + n <= |recs| && forall b :: from <= b < from + n ==> recs[b] == []
    ensures CountRecs(recs, from, n) == 0
  {
    if n > 0 { CountEmpty(recs, from, n - 1); }
  }

  /** Descriptors and bucket heads agree with the layout of the space. */
  ghost predicate DescsOk(spaceAddr: Addr, spaceSize: nat, descs: seq<IndexDesc>, heads: seq<Addr>)
    requires SpaceOk(spaceAddr, spaceSize)
  {
    var size := BucketsPerIndex(spaceSize);
    && |descs| <= MAX_INDEXES
    && |heads| == |descs| * size
    && (forall s :: 0 <= s < |descs| ==>
          descs[s].bucketsSize == size && descs[s].sizemask == size - 1
            && descs[s].buckets == SlotBase(spaceAddr, spaceSize, s))
    && (forall s, l :: 0 <= s < |descs| && 0 <= l < size ==>
          BucketAt(s, size, l) < |heads|
            && heads[BucketAt(s, size, l)] == EntryAt(SlotBase(spaceAddr, spaceSize, s), l))
  }

  /** Each index's 32-bit `used` field is its number of records. */
  ghost predicate CountsOk(descs: seq<IndexDesc>, recs: seq<seq<Rec>>, size: nat) {
    forall s :: 0 <= s < |descs| ==>
      BucketAt(s, size, 0) + size <= |recs| && descs[s].used == Wrap(CountRecs(recs, BucketAt(s, size, 0), size))
  }

  /** Entries in memory do not overlap, stop at `cur`, and leave slots from `free` to `start` unused. */
  ghost predicate Packed(mem: Memory, free: Addr, start: Addr, cur: Addr) {
    && (forall a, b :: a in mem && b in mem && a < b ==> a + ENTRY_SIZE <= b)
    && (forall a :: a in mem ==> (a == NULL || ENTRY_SIZE <= a) && a + ENTRY_SIZE <= cur)
    && (forall a :: a in mem ==> a == NULL || a + ENTRY_SIZE <= free || start <= a)
  }

  /** The invariant of a DPU's index storage. */
  ghost predicate StoreOk(spaceAddr: Addr, spaceSize: nat, start: Addr, cur: Addr, mem: Memory,
                          descs: seq<IndexDesc>, heads: seq<Addr>, view: View)
    requires SpaceOk(spaceAddr, spaceSize)
  {
    && DescsOk(spaceAddr, spaceSize, descs, heads)
    && Packed(mem, SlotBase(spaceAddr, spaceSize, |descs|), start, cur)
    && HeapOk(mem, heads, view)
    && Homed(view.recs, BucketsPerIndex(spaceSize))
  }

  /** The descriptors after a 32-bit change of one index's record count. */
  function AddUsed(descs: seq<IndexDesc>, slot: nat, delta: int): (r: seq<IndexDesc>)
    requires slot < |descs|
    ensures |r| == |descs|
  {
    descs[slot := descs[slot].(used := Wrap(descs[slot].used + delta))]
  }

  /** Changing one bucket of one index by `delta` records, with `used`, keeps every count right. */
  lemma CountsChanged(descs: seq<IndexDesc>, recs: seq<seq<Rec>>, size: nat, slot: nat, local: nat, c: seq<Rec>,
                      delta: int)
    requires slot < |descs| && local < size
    requires CountsOk(descs, recs, size)
    requires BucketAt(slot, size, local) < |recs|
    requires |c| == |recs[BucketAt(slot, size, local)]| + delta
    ensures CountsOk(AddUsed(descs, slot, delta), recs[BucketAt(slot, size, local) := c], size)
  {
    var b := BucketAt(slot, size, local);
    forall s | 0 <= s < |descs|
      ensures CountRecs(recs[b := c], BucketAt(s, size, 0), size) ==
              CountRecs(recs, BucketAt(s, size, 0), size) + if s == slot then |c| - |recs[b]| else 0
    {
      CountUpdate(recs, BucketAt(s, size, 0), size, b, c);
      if s < slot { ProductGrows(s, slot, size); }
      if slot < s { ProductGrows(slot, s, size); }
    }
  }

  /** An insert adds its value, and only that, exactly when the bucket was empty or a node was left. */
  lemma PlacedKeepsAll(c: seq<Rec>, r: Rec, room: bool)
    ensures (c == [] || room) <==>
            forall key: Key :: Hits(Placed(c, r, room), key) == Hits(c, key) + if r.key == key then multiset{r.val}
                   else multiset{}
  {
    forall key: Key
      ensures Hits(InsertRec(c, r), key) == Hits(c, key) + if r.key == key then multiset{r.val} else multiset{}
    {
      InsertHits(c, r, key);
    }
    if c != [] && !room {
      var key := r.key;
      assert c == c[..1] + c[1..];
      HitsConcat(c[..1], c[1..], key);
      assert |Hits(c, key)| == |Hits(c[..1], key)| + |Hits(c[1..], key)|;
      assert |Hits(c, key) + multiset{r.val}| == |Hits(c, key)| + 1;
      assert Hits(Placed(c, r, room), key) != Hits(c, key) + multiset{r.val};
    }
  }

  /** An insert that needs a node and finds none: its own value and that of another key in the bucket are lost. */
  lemma LostValues(k: Key, j: Key, meta: Metadata)
    requires k != j
    ensures var before, r := [Rec(k, 1, meta), Rec(j, 2, meta)], Rec(k, 3, meta);
            && Hits(before, k) == multiset{1} && Hits(Placed(before, r, false), k) == multiset{1}
            && Hits(before, j) == multiset{2} && Hits(Placed(before, r, false), j) == multiset{}
  {
    var a, b := Rec(k, 1, meta), Rec(j, 2, meta);
    assert [a, b] == [a] + [b];
    assert [a, b][..1] == [a];
    HitsConcat([a], [b], k);
    HitsConcat([a], [b], j);
    HitsSingle(a, k);
    HitsSingle(a, j);
    HitsSingle(b, k);
    HitsSingle(b, j);
  }

  class PrimaryIndexStore {
    const spaceAddr: Addr
    const spaceSize: nat
    const alloc: LinearAllocator
    var mem: Memory
    var prestored: seq<IndexDesc>
    ghost var heads: seq<Addr>
    ghost var view: View

    ghost function Size(): (r: nat)
      requires SpaceOk(spaceAddr, spaceSize)
      ensures r >= 1
    {
      BucketsPerIndex(spaceSize)
    }

    ghost function BaseOf(slot: nat): Addr {
      SlotBase(spaceAddr, spaceSize, slot)
    }

    ghost predicate Valid()
      reads this, alloc
    {
      && SpaceOk(spaceAddr, spaceSize)
      && alloc.Valid() && spaceAddr + spaceSize <= alloc.start
      && StoreOk(spaceAddr, spaceSize, alloc.start, alloc.cur, mem, prestored, heads, view)
    }

    ghost predicate Counted()
      reads this, alloc
      requires Valid()
    {
      CountsOk(prestored, view.recs, Size())
    }

    /** The bucket, among all buckets of the DPU, of a key in the index at `slot`. */
    ghost function BucketFor(slot: nat, key: Key): (b: nat)
      reads this, alloc
      requires Valid() && slot < |prestored|
      ensures b < |heads| && |heads| == |view.chains| == |view.recs|
    {
      BucketAt(slot, Size(), LocalBucket(key, Size()))
    }

    ghost function Snapshot(): Snap
      reads this
    {
      Snap(view.recs, view.chains)
    }

    constructor (spaceAddr: Addr, spaceSize: nat, alloc: LinearAllocator)
      requires SpaceOk(spaceAddr, spaceSize) && alloc.Valid() && spaceAddr + spaceSize <= alloc.start
      ensures Valid() && Counted() && prestored == [] && this.alloc == alloc
    {
      this.spaceAddr := spaceAddr;
      this.spaceSize := spaceSize;
      this.alloc := alloc;
      mem := map[];
      prestored := [];
      heads := [];
      view := View([], [], map[]);
    }

    // --- Create -----------------------------------------------------------------------

    /** One tasklet's share of clearing the bucket array at `base`. */
    method InitBuckets(base: Addr, size: nat, tasklet: nat, tasklets: nat)
      requires tasklet < tasklets
      modifies this`mem
      ensures forall i :: BlockLow(tasklet, tasklets, size) <= i < BlockLow(tasklet + 1, tasklets, size) ==>
                EntryAt(base, i) in mem && mem[EntryAt(base, i)] == EMPTY_ENTRY
      ensures Cleared(old(mem), mem, base, BlockLow(tasklet, tasklets, size), BlockLow(tasklet + 1, tasklets, size))
    {
      BlockLowMonotone(tasklet, tasklet + 1, tasklets, size);
      var start, end := BlockLow(tasklet, tasklets, size), BlockLow(tasklet + 1, tasklets, size) - 1;
      var i: int := start;
      while i <= end
        invariant start <= i <= end + 1
        invariant forall j :: start <= j < i ==> EntryAt(base, j) in mem && mem[EntryAt(base, j)] == EMPTY_ENTRY
        invariant Cleared(old(mem), mem, base, start, i)
      {
        mem := mem[EntryAt(base, i) := EMPTY_ENTRY];
        i := i + 1;
      }
    }

    /** The only differences between two memories are entries lo..hi of the array at `base`. */
    static ghost predicate Cleared(before: Memory, after: Memory, base: Addr, lo: nat, hi: nat) {
      && (forall a :: a in before ==>
          a in after && (after[a] == before[a] || exists i :: lo <= i < hi && a == EntryAt(base, i)))
      && (forall a :: a in after ==> a in before || exists i :: lo <= i < hi && a == EntryAt(base, i))
    }

    static lemma ClearedTrans(m0: Memory, m1: Memory, m2: Memory, base: Addr, lo: nat, mid: nat, hi: nat)
      requires lo <= mid <= hi && Cleared(m0, m1, base, lo, mid) && Cleared(m1, m2, base, mid, hi)
      ensures Cleared(m0, m2, base, lo, hi)
    {
    }

    /** What clearing the first unused slot means for the memory. */
    static lemma ClearedSlot(before: Memory, after: Memory, base: Addr, size: nat, next: Addr, start: Addr, cur: Addr)
      requires ENTRY_SIZE <= base && base + ENTRY_SIZE * size <= next <= start <= cur
      requires Packed(before, base, start, cur) && Cleared(before, after, base, 0, size)
      ensures Packed(after, next, start, cur)
      ensures forall i :: 0 <= i < size ==> EntryAt(base, i) !in before
      ensures forall a :: a in before ==> a in after && after[a] == before[a]
    {
      forall i | 0 <= i < size
        ensures EntryAt(base, i) !in before
      {
      }
      forall a, b | a in after && b in after && a < b
        ensures a + ENTRY_SIZE <= b
      {
        if a !in before {
          var i :| 0 <= i < size && a == EntryAt(base, i);
          if b !in before { var j :| 0 <= j < size && b == EntryAt(base, j); }
        }
      }
    }

    /** All tasklets' shares together clear the whole array. */
    method ClearBuckets(base: Addr, size: nat, tasklets: nat)
      requires tasklets > 0
      modifies this`mem
      ensures Cleared(old(mem), mem, base, 0, size)
      ensures forall i :: 0 <= i < size ==> EntryAt(base, i) in mem && mem[EntryAt(base, i)] == EMPTY_ENTRY
    {
      BlockLowMonotone(0, 0, tasklets, size);
      ghost var done: nat := 0;
      for t := 0 to tasklets
        invariant done == BlockLow(t, tasklets, size) <= size
        invariant Cleared(old(mem), mem, base, 0, done)
        invariant forall i :: 0 <= i < done ==> EntryAt(base, i) in mem && mem[EntryAt(base, i)] == EMPTY_ENTRY
      {
        ghost var before := mem;
        BlockLowMonotone(t, t + 1, tasklets, size);
        BlockLowMonotone(t + 1, tasklets, tasklets, size);
        InitBuckets(base, size, t, tasklets);
        ClearedTrans(old(mem), before, mem, base, 0, done, BlockLow(t + 1, tasklets, size));
        done := BlockLow(t + 1, tasklets, size);
      }
      BlockLowMonotone(tasklets, tasklets, tasklets, size);
    }

    /** Registers a new index and clears its buckets, each of the tasklets its own block. */
    method Create(id: int, tasklets: nat) returns (slot: Option<nat>)
      requires Valid() && tasklets > 0
      modifies this`mem, this`prestored, this`heads, this`view
      ensures Valid()
      ensures slot.None? <==> old(|prestored|) == 32
      ensures slot.None? ==> view == old(view) && prestored == old(prestored) && mem == old(mem)
      ensures slot.Some? ==>
                slot.value == old(|prestored|)
                && prestored == old(prestored) + [IndexDesc(id, Size(), Size() - 1, 0, BaseOf(slot.value))]
                && view.recs == old(view.recs) + seq(Size(), i => [])
      ensures slot.Some? && spaceAddr == 0x2000000 && spaceSize == 0x1000000 ==>
                prestored[slot.value].buckets == 0x2000000 + 0x80000 * slot.value
                && prestored[slot.value].bucketsSize == 8192
      ensures old(Counted()) ==> Counted()
    {
      hide Packed, Homed, CountsOk, ChainOk;
      if |prestored| >= MAX_INDEXES {
        return None;
      }
      ActualSlots(|prestored|);
      ActualSpace();
      var n := |prestored|;
      var size := SizeBuckets(spaceSize);
      var base := spaceAddr + n * spaceSize / MAX_INDEXES;
      ClearBuckets(base, size, tasklets);
      ghost var desc := IndexDesc(id, size, size - 1, 0, base);
      ghost var more, view' := RegisterSlot(spaceAddr, spaceSize, alloc.start, alloc.cur, old(mem), mem, prestored,
                                            heads, view, desc);
      CountsAdded(spaceAddr, spaceSize, prestored, heads, view.recs, desc);
      prestored := prestored + [IndexDesc(id, size, size - 1, 0, base)];
      heads := heads + more;
      view := view';
      slot := Some(n);
    }

    static lemma RegisterSlot(spaceAddr: Addr, spaceSize: nat, start: Addr, cur: Addr, before: Memory, after: Memory,
                              descs: seq<IndexDesc>, heads: seq<Addr>, view: View, desc: IndexDesc)
      returns (more: seq<Addr>, view': View)
      requires SpaceOk(spaceAddr, spaceSize) && spaceAddr + spaceSize <= start <= cur && |descs| < MAX_INDEXES
      requires StoreOk(spaceAddr, spaceSize, start, cur, before, descs, heads, view)
      requires desc == IndexDesc(desc.id, BucketsPerIndex(spaceSize), BucketsPerIndex(spaceSize) - 1, 0,
                                 SlotBase(spaceAddr, spaceSize, |descs|))
      requires Cleared(before, after, desc.buckets, 0, desc.bucketsSize)
      requires forall i :: 0 <= i < desc.bucketsSize ==>
               EntryAt(desc.buckets, i) in after && after[EntryAt(desc.buckets, i)] == EMPTY_ENTRY
      ensures StoreOk(spaceAddr, spaceSize, start, cur, after, descs + [desc], heads + more, view')
      ensures view'.recs == view.recs + seq(desc.bucketsSize, i => [])
      ensures |more| == desc.bucketsSize && forall l :: 0 <= l < |more| ==> more[l] == EntryAt(desc.buckets, l)
    {
      SlotBounds(spaceAddr, spaceSize, |descs|);
      more, view' := NewBuckets(before, after, heads, view, desc.buckets, desc.bucketsSize,
                                SlotBase(spaceAddr, spaceSize, |descs| + 1), start, cur);
      SlotAdded(spaceAddr, spaceSize, start, cur, after, descs, heads, view, more, view', desc);
    }

    static lemma SlotAdded(spaceAddr: Addr, spaceSize: nat, start: Addr, cur: Addr, mem: Memory,
                           descs: seq<IndexDesc>, heads: seq<Addr>, view: View,
                           more: seq<Addr>, view': View, desc: IndexDesc)
      requires SpaceOk(spaceAddr, spaceSize) && |descs| < MAX_INDEXES
      requires DescsOk(spaceAddr, spaceSize, descs, heads) && Homed(view.recs, BucketsPerIndex(spaceSize))
      requires Packed(mem, SlotBase(spaceAddr, spaceSize, |descs| + 1), start, cur)
      requires HeapOk(mem, heads + more, view') && view'.recs == view.recs + seq(BucketsPerIndex(spaceSize), i => [])
      requires |more| == BucketsPerIndex(spaceSize)
      requires forall l :: 0 <= l < |more| ==> more[l] == EntryAt(SlotBase(spaceAddr, spaceSize, |descs|), l)
      requires desc == IndexDesc(desc.id, |more|, |more| - 1, 0, SlotBase(spaceAddr, spaceSize, |descs|))
      ensures StoreOk(spaceAddr, spaceSize, start, cur, mem, descs + [desc], heads + more, view')
    {
      NewDesc(spaceAddr, spaceSize, descs, heads, more, desc.id);
      AppendHomed(view.recs, |more|, |more|);
      assert |descs + [desc]| == |descs| + 1;
      assert Homed(view'.recs, |more|);
    }

    static lemma NewBuckets(before: Memory, after: Memory, heads: seq<Addr>, view: View,
                            base: Addr, size: nat, next: Addr, start: Addr, cur: Addr)
      returns (more: seq<Addr>, view': View)
      requires HeapOk(before, heads, view)
      requires ENTRY_SIZE <= base && base + ENTRY_SIZE * size <= next <= start <= cur
      requires Packed(before, base, start, cur) && Cleared(before, after, base, 0, size)
      requires forall i :: 0 <= i < size ==> EntryAt(base, i) in after && after[EntryAt(base, i)] == EMPTY_ENTRY
      ensures Packed(after, next, start, cur)
      ensures |more| == size && forall l :: 0 <= l < size ==> more[l] == EntryAt(base, l)
      ensures HeapOk(after, heads + more, view') && view'.recs == view.recs + seq(size, i => [])
    {
      ClearedSlot(before, after, base, size, next, start, cur);
      more := seq(size, i requires 0 <= i < size => EntryAt(base, i));
      view' := AppendEmpty(before, after, heads, view, more);
    }

    static lemma NewDesc(spaceAddr: Addr, spaceSize: nat, descs: seq<IndexDesc>, heads: seq<Addr>, more: seq<Addr>,
                         id: int)
      requires SpaceOk(spaceAddr, spaceSize) && DescsOk(spaceAddr, spaceSize, descs, heads) && |descs| < MAX_INDEXES
      requires |more| == BucketsPerIndex(spaceSize)
      requires forall l :: 0 <= l < |more| ==> more[l] == EntryAt(SlotBase(spaceAddr, spaceSize, |descs|), l)
      ensures DescsOk(spaceAddr, spaceSize,
                      descs + [IndexDesc(id, |more|, |more| - 1, 0, SlotBase(spaceAddr, spaceSize, |descs|))],
                        heads + more)
    {
      var n, size := |descs|, |more|;
      assert (n + 1) * size == n * size + size;
      forall s, l | 0 <= s < n + 1 && 0 <= l < size
        ensures BucketAt(s, size, l) < |heads + more|
        ensures (heads + more)[BucketAt(s, size, l)] == EntryAt(SlotBase(spaceAddr, spaceSize, s), l)
      {
      }
    }

    static lemma NewCounts(descs: seq<IndexDesc>, recs: seq<seq<Rec>>, size: nat, desc: IndexDesc)
      requires |recs| == |descs| * size && CountsOk(descs, recs, size) && desc.used == 0
      ensures CountsOk(descs + [desc], recs + seq(size, i => []), size)
    {
      var n, recs' := |descs|, recs + seq(size, i => []);
      CountEmpty(recs', n * size, size);
      forall s | 0 <= s < n
        ensures CountRecs(recs', BucketAt(s, size, 0), size) == CountRecs(recs, BucketAt(s, size, 0), size)
      {
        CountAppend(recs, seq(size, i => []), BucketAt(s, size, 0), size);
      }
    }

    static lemma CountsAdded(spaceAddr: Addr, spaceSize: nat, descs: seq<IndexDesc>, heads: seq<Addr>,
                             recs: seq<seq<Rec>>, desc: IndexDesc)
      requires SpaceOk(spaceAddr, spaceSize) && DescsOk(spaceAddr, spaceSize, descs, heads) && |recs| == |heads|
               && desc.used == 0
      ensures var size := BucketsPerIndex(spaceSize);
              CountsOk(descs, recs, size) ==> CountsOk(descs + [desc], recs + seq(size, i => []), size)
    {
      hide CountsOk, BucketsPerIndex, SlotBase;
      var size := BucketsPerIndex(spaceSize);
      if CountsOk(descs, recs, size) { NewCounts(descs, recs, size, desc); }
    }

    static lemma AppendHomed(recs: seq<seq<Rec>>, size: nat, more: nat)
      requires size > 0 && Homed(recs, size)
      ensures Homed(recs + seq(more, i => []), size)
    {
    }

    // --- Operations -------------------------------------------------------------------

    /** The head of the key's bucket, from hash and mask. */
    method BucketHead(slot: nat, key: Key) returns (head: Addr)
      requires Valid() && slot < |prestored|
      ensures head == heads[BucketFor(slot, key)] && head in mem
      ensures BucketFor(slot, key) % Size() == LocalBucket(key, Size())
    {
      hide HeapOk, Packed, Homed, BitAnd, HashFrom;
      var pid := prestored[slot];
      var hash := HashBytes(DPU_SEED, key);
      Pow2FloorIsLargest(EntriesPerSlot(spaceSize));
      MaskedHashIsLocalBucket(key, pid.bucketsSize);
      BucketAtBounds(slot, Size(), LocalBucket(key, Size()), |prestored|);
      head := pid.buckets + ENTRY_SIZE * BitAnd(hash, pid.sizemask);
      assert head == EntryAt(BaseOf(slot), LocalBucket(key, Size()));
      hide LocalBucket;
      BucketLength(mem, heads, view, BucketFor(slot, key));
    }

    /** The entry holding the new key: the buffer's bytes, length and value overwritten. */
    static method FillBuffer(buffer: Entry, key: Key, val: nat, meta: Option<Metadata>, next: Addr) returns (e: Entry)
      ensures Stored(e, Rec(key, val, if meta.Some? then meta.value else buffer.meta)) && e.next == next
    {
      var bytes := WramMemcpy(buffer.bytes, key);
      e := buffer.(bytes := bytes, keyLen := |key|, val := val, next := next);
      if meta.Some? {
        e := e.(meta := meta.value);
      }
    }

    /** Puts a record into the bucket at `head`; without `meta` it keeps the metadata
        that lay in the head. */
    method Place(ghost b: nat, head: Addr, key: Key, val: nat, meta: Option<Metadata>)
      requires Valid() && b < |heads| && heads[b] == head && head in mem
      requires LocalBucket(key, Size()) == b % Size()
      modifies this`mem, this`view, alloc`cur, alloc`availSize
      ensures Valid() && |view.recs| == |old(view.recs)|
      ensures view.recs == old(view.recs)[b := Placed(old(view.recs[b]),
                                                      Rec(key, val, if meta.Some? then meta.value
                                                          else old(mem)[head].meta),
                                                      old(alloc.availSize) >= ENTRY_SIZE)]
      ensures view.chains == old(view.chains)[b := PlacedChain(old(view.recs[b]), old(view.chains[b]), old(alloc.cur),
                                                               old(alloc.availSize) >= ENTRY_SIZE)]
    {
      hide HeapOk, DescsOk, Homed, Packed, SlotBase, BucketsPerIndex;
      BucketLength(mem, heads, view, b);
      HomedPlaced(view.recs, Size(), b, Rec(key, val, if meta.Some? then meta.value else mem[head].meta),
                  alloc.availSize >= ENTRY_SIZE);
      if mem[head].keyLen == 0 {
        ghost var before := mem;
        PlaceFirst(b, head, key, val, meta);
        PackedSameKeys(before, mem, BaseOf(|prestored|), alloc.start, alloc.cur);
      } else {
        CurIsFree(mem, BaseOf(|prestored|), alloc.start, alloc.cur);
        ghost var before, cur := mem, alloc.cur;
        PlaceSecond(b, head, key, val, meta);
        PackedGrows(before, mem, BaseOf(|prestored|), alloc.start, cur, alloc.cur);
      }
    }

    method PlaceFirst(ghost b: nat, head: Addr, key: Key, val: nat, meta: Option<Metadata>)
      requires HeapOk(mem, heads, view) && b < |heads| && heads[b] == head && head in mem && view.recs[b] == []
      modifies this`mem, this`view
      ensures HeapOk(mem, heads, view) && mem.Keys == old(mem.Keys)
      ensures view.recs == old(view.recs)[b := [Rec(key, val, if meta.Some? then meta.value else old(mem)[head].meta)]]
      ensures view.chains == old(view.chains)
    {
      var buffer := mem[head];
      ghost var r := Rec(key, val, if meta.Some? then meta.value else buffer.meta);
      buffer := FillBuffer(buffer, key, val, meta, NULL);
      FillHead(mem, heads, view, b, buffer, r);
      mem := mem[head := buffer];
      view := view.(recs := view.recs[b := InsertRec(view.recs[b], r)]);
    }

    method PlaceSecond(ghost b: nat, head: Addr, key: Key, val: nat, meta: Option<Metadata>)
      requires HeapOk(mem, heads, view) && b < |heads| && heads[b] == head && head in mem && view.recs[b] != []
      requires alloc.Valid() && alloc.cur !in mem
      modifies this`mem, this`view, alloc`cur, alloc`availSize
      ensures HeapOk(mem, heads, view) && alloc.Valid() && old(alloc.cur) <= alloc.cur
      ensures if old(alloc.availSize) >= ENTRY_SIZE
              then mem.Keys == old(mem.Keys) + {old(alloc.cur)} && alloc.cur == old(alloc.cur) + ENTRY_SIZE
              else mem.Keys == old(mem.Keys) + {NULL}
      ensures view.recs == old(view.recs)[b := Placed(old(view.recs[b]),
                                                      Rec(key, val, if meta.Some? then meta.value
                                                          else old(mem)[head].meta),
                                                      old(alloc.availSize) >= ENTRY_SIZE)]
      ensures view.chains == old(view.chains)[b := PlacedChain(old(view.recs[b]), old(view.chains[b]), old(alloc.cur),
                                                               old(alloc.availSize) >= ENTRY_SIZE)]
    {
      var buffer := mem[head];
      ghost var r := Rec(key, val, if meta.Some? then meta.value else buffer.meta);
      var next := buffer.next;
      var node := alloc.Alloc(ENTRY_SIZE);
      ghost var before := mem;
      buffer := buffer.(next := node);
      mem := mem[head := buffer];
      buffer := FillBuffer(buffer, key, val, meta, next);
      mem := mem[node := buffer];
      assert mem == LinkSecond(before, head, node, buffer);
      view := LinkedView(before, heads, view, b, node, buffer, r);
    }

    /** The view after both writes behind the head, whether or not a node was left. */
    static ghost function LinkedView(mem: Memory, heads: seq<Addr>, v: View, b: nat, node: Addr, e: Entry,
                                     r: Rec): (v': View)
      requires HeapOk(mem, heads, v) && b < |heads| && v.recs[b] != [] && heads[b] in mem
      requires Stored(e, r) && e.next == mem[heads[b]].next && (node != NULL ==> node !in mem)
      ensures HeapOk(LinkSecond(mem, heads[b], node, e), heads, v')
      ensures v'.recs == v.recs[b := Placed(v.recs[b], r, node != NULL)]
      ensures v'.chains == v.chains[b := PlacedChain(v.recs[b], v.chains[b], node, node != NULL)]
    {
      if node == NULL then
        CutAfterHead(mem, heads, v, b, e);
        v.(chains := v.chains[b := [heads[b]]], recs := v.recs[b := v.recs[b][..1]])
      else
        InsertSecond(mem, heads, v, b, node, e, r);
        View(v.chains[b := InsertChain(v.chains[b], node)], v.recs[b := InsertRec(v.recs[b], r)], v.owner[node := b])
    }

    static lemma CurIsFree(mem: Memory, free: Addr, start: Addr, cur: Addr)
      requires Packed(mem, free, start, cur)
      ensures cur !in mem
    {
    }

    static lemma PackedGrows(before: Memory, after: Memory, free: Addr, start: Addr, cur: Addr, cur': Addr)
      requires Packed(before, free, start, cur) && ENTRY_SIZE <= start <= cur <= cur'
      requires after.Keys == before.Keys + {NULL} || (after.Keys == before.Keys + {cur} && cur' == cur + ENTRY_SIZE)
      ensures Packed(after, free, start, cur')
    {
    }

    static lemma HomedPlaced(recs: seq<seq<Rec>>, size: nat, b: nat, r: Rec, room: bool)
      requires size > 0 && Homed(recs, size) && b < |recs| && LocalBucket(r.key, size) == b % size
      ensures Homed(recs[b := Placed(recs[b], r, room)], size)
    {
      HomedUpdate(recs, size, b, Placed(recs[b], r, room));
    }

    static lemma HomedRemoved(recs: seq<seq<Rec>>, size: nat, b: nat, key: Key)
      requires size > 0 && Homed(recs, size) && b < |recs|
      ensures Homed(recs[b := RemoveRec(recs[b], key)], size)
    {
      HomedUpdate(recs, size, b, RemoveRec(recs[b], key));
    }

    static lemma CountsPlaced(descs: seq<IndexDesc>, recs: seq<seq<Rec>>, size: nat, slot: nat, local: nat, r: Rec,
                              room: bool)
      requires slot < |descs| && local < size && BucketAt(slot, size, local) < |recs|
      ensures var b := BucketAt(slot, size, local);
              CountsOk(descs, recs, size) && (recs[b] == [] || room) ==>
                CountsOk(AddUsed(descs, slot, 1), recs[b := Placed(recs[b], r, room)], size)
    {
      var b := BucketAt(slot, size, local);
      if CountsOk(descs, recs, size) && (recs[b] == [] || room) {
        CountsChanged(descs, recs, size, slot, local, Placed(recs[b], r, room), 1);
      }
    }

    static lemma CountsRemoved(descs: seq<IndexDesc>, recs: seq<seq<Rec>>, size: nat, slot: nat, local: nat, key: Key)
      requires slot < |descs| && local < size && BucketAt(slot, size, local) < |recs|
      requires Present(recs[BucketAt(slot, size, local)], key)
      ensures var b := BucketAt(slot, size, local);
              CountsOk(descs, recs, size) ==>
                CountsOk(AddUsed(descs, slot, -1), recs[b := RemoveRec(recs[b], key)], size)
    {
      var b := BucketAt(slot, size, local);
      if CountsOk(descs, recs, size) {
        CountsChanged(descs, recs, size, slot, local, RemoveRec(recs[b], key), -1);
      }
    }

    static lemma CountsUpdated(descs: seq<IndexDesc>, recs: seq<seq<Rec>>, size: nat, b: nat, c: seq<Rec>)
      requires b < |recs| && |c| == |recs[b]|
      ensures CountsOk(descs, recs, size) ==> CountsOk(descs, recs[b := c], size)
    {
      if CountsOk(descs, recs, size) {
        forall s | 0 <= s < |descs|
          ensures CountRecs(recs[b := c], BucketAt(s, size, 0), size) == CountRecs(recs, BucketAt(s, size, 0), size)
        {
          CountUpdate(recs, BucketAt(s, size, 0), size, b, c);
        }
      }
    }

    static lemma StoreKept(spaceAddr: Addr, spaceSize: nat, start: Addr, cur: Addr, mem: Memory,
                           descs: seq<IndexDesc>, heads: seq<Addr>, view: View, slot: nat, used: nat)
      requires SpaceOk(spaceAddr, spaceSize) && StoreOk(spaceAddr, spaceSize, start, cur, mem, descs, heads, view)
      requires slot < |descs|
      ensures StoreOk(spaceAddr, spaceSize, start, cur, mem, descs[slot := descs[slot].(used := used)], heads, view)
    {
    }

    /** 32-bit change of an index's record count. */
    method AdjustUsed(slot: nat, delta: int)
      requires Valid() && slot < |prestored|
      modifies this`prestored
      ensures Valid()
      ensures prestored == AddUsed(old(prestored), slot, delta)
    {
      var used := Wrap(prestored[slot].used + delta);
      StoreKept(spaceAddr, spaceSize, alloc.start, alloc.cur, mem, prestored, heads, view, slot, used);
      prestored := prestored[slot := prestored[slot].(used := used)];
    }

    /** Adds a record without looking for the key. The record goes second in its bucket with the
        metadata found in the head; if a node is needed and none is left, the bucket is cut to its head. */
    method Insert(slot: nat, key: Key, val: nat) returns (st: Status)
      requires Valid() && slot < |prestored|
      modifies this`mem, this`view, this`prestored, alloc`cur, alloc`availSize
      ensures Valid() && |prestored| == old(|prestored|) && st == Ok
      ensures prestored == AddUsed(old(prestored), slot, 1)
      ensures heads[BucketFor(slot, key)] in old(mem)
      ensures view.recs == old(view.recs)[BucketFor(slot, key) :=
                             Placed(old(view.recs)[BucketFor(slot, key)],
                                    Rec(key, val, old(mem)[heads[BucketFor(slot, key)]].meta),
                                    old(alloc.availSize) >= ENTRY_SIZE)]
      ensures view.chains == old(view.chains)[BucketFor(slot, key) :=
                               PlacedChain(old(view.recs)[BucketFor(slot, key)], old(view.chains)[BucketFor(slot, key)],
                                           old(alloc.cur), old(alloc.availSize) >= ENTRY_SIZE)]
      ensures old(Counted()) && (old(view.recs)[BucketFor(slot, key)] == [] || old(alloc.availSize) >= ENTRY_SIZE) ==>
              Counted()
    {
      var head := BucketHead(slot, key);
      ghost var descs, recs := prestored, view.recs;
      Place(BucketFor(slot, key), head, key, val, None);
      AdjustUsed(slot, 1);
      CountsPlaced(descs, recs, Size(), slot, LocalBucket(key, Size()), Rec(key, val, old(mem)[head].meta),
                   old(alloc.availSize) >= ENTRY_SIZE);
      st := Ok;
    }

    /** Removes the bucket's first record for the key, if it has one. */
    method Delete(slot: nat, key: Key) returns (st: Status)
      requires Valid() && slot < |prestored|
      modifies this`mem, this`view, this`prestored
      ensures Valid() && |prestored| == old(|prestored|)
      ensures st == Ok <==> Present(old(view.recs)[BucketFor(slot, key)], key)
      ensures st == Ok ==> prestored == AddUsed(old(prestored), slot, -1)
      ensures st == Err ==> prestored == old(prestored) && view.recs == old(view.recs)
      ensures view.recs == old(view.recs)[BucketFor(slot, key) := RemoveRec(old(view.recs)[BucketFor(slot, key)], key)]
      ensures view.chains == old(view.chains)[BucketFor(slot, key) :=
                               RemovedChain(old(view.recs)[BucketFor(slot, key)],
                                            old(view.chains)[BucketFor(slot, key)], key)]
      ensures old(Counted()) ==> Counted()
      ensures Does(Size(), old(Snapshot()), Op.Delete(slot, key), Snapshot())
    {
      var head := BucketHead(slot, key);
      ghost var descs, recs := prestored, view.recs;
      var flag := DeleteEntry(BucketFor(slot, key), head, key);
      if flag {
        AdjustUsed(slot, -1);
        CountsRemoved(descs, recs, Size(), slot, LocalBucket(key, Size()), key);
        st := Ok;
      } else {
        st := Err;
      }
    }

    method DeleteEntry(ghost b: nat, head: Addr, key: Key) returns (flag: bool)
      requires Valid() && b < |heads| && heads[b] == head && head in mem
      modifies this`mem, this`view
      ensures Valid()
      ensures flag <==> Present(old(view.recs)[b], key)
      ensures view.recs == old(view.recs)[b := RemoveRec(old(view.recs)[b], key)]
      ensures view.chains == old(view.chains)[b := RemovedChain(old(view.recs)[b], old(view.chains)[b], key)]
    {
      hide ChainOk, Homed, RemoveRec, IndexOf;
      HomedRemoved(view.recs, Size(), b, key);
      flag := DeleteFrom(b, head, key);
    }

    /** The chain part of a delete: copy the second node over a matching head, or splice a later match out. */
    method DeleteFrom(ghost b: nat, head: Addr, key: Key) returns (flag: bool)
      requires HeapOk(mem, heads, view) && b < |heads| && heads[b] == head && head in mem && alloc.Valid()
      modifies this`mem, this`view
      ensures HeapOk(mem, heads, view) && mem.Keys == old(mem.Keys)
      ensures flag <==> Present(old(view.recs)[b], key)
      ensures view.recs == old(view.recs)[b := RemoveRec(old(view.recs)[b], key)]
      ensures view.chains == old(view.chains)[b := RemovedChain(old(view.recs)[b], old(view.chains)[b], key)]
    {
      BucketLength(mem, heads, view, b);
      ghost var ps, c := view.chains[b], view.recs[b];
      assert ChainOk(mem, ps, c);
      var buffer := mem[head];
      flag := KeyCompare(buffer, key);
      if flag {
        IndexIs(c, key, 0);
        assert RemoveRec(c, key) == c[1..];
        buffer := buffer.(keyLen := 0);
        if buffer.next != NULL {
          buffer := mem[buffer.next];
          CopyToHead(mem, heads, view, b);
          view := view.(chains := view.chains[b := [head] + ps[2..]], recs := view.recs[b := c[1..]]);
        } else {
          EmptyHead(mem, heads, view, b);
          view := view.(recs := view.recs[b := []]);
        }
        mem := mem[head := buffer];
      } else {
        flag := SpliceKey(b, head, key);
      }
    }

    method SpliceKey(ghost b: nat, head: Addr, key: Key) returns (flag: bool)
      requires HeapOk(mem, heads, view) && b < |heads| && heads[b] == head && head in mem && alloc.Valid()
      requires !Matches(mem[head], key)
      modifies this`mem, this`view
      ensures HeapOk(mem, heads, view) && mem.Keys == old(mem.Keys)
      ensures flag <==> Present(old(view.recs)[b], key)
      ensures view.recs == old(view.recs)[b := RemoveRec(old(view.recs)[b], key)]
      ensures view.chains == old(view.chains)[b := RemovedChain(old(view.recs)[b], old(view.chains)[b], key)]
    {
      BucketLength(mem, heads, view, b);
      hide ChainOk, Matches;
      ghost var c := view.recs[b];
      var lastPtr: Addr, last: Entry, buffer: Entry;
      ghost var i: nat;
      flag, lastPtr, last, buffer, i := Seek(b, head, key);
      RemovedAt(c, key, i);
      if flag {
        alloc.Free(last.next);
        last := last.(next := buffer.next);
        RewriteLink(b, i, lastPtr, last);
      } else {
        assert view.recs[b := c] == view.recs && view.chains[b := view.chains[b]] == view.chains;
      }
    }

    /** The walk behind a head that does not match: the first matching node with its predecessor, if there is one. */
    method Seek(ghost b: nat, head: Addr, key: Key)
      returns (flag: bool, lastPtr: Addr, last: Entry, buffer: Entry, ghost i: nat)
      requires HeapOk(mem, heads, view) && b < |heads| && heads[b] == head && head in mem && !Matches(mem[head], key)
      ensures i == IndexOf(view.recs[b], key) && (flag <==> i < |view.recs[b]|)
      ensures flag ==> 1 <= i < |view.chains[b]| && view.chains[b][i - 1] in mem && view.chains[b][i] in mem
      ensures flag ==> lastPtr == view.chains[b][i - 1] && last == mem[lastPtr] && buffer == mem[view.chains[b][i]]
    {
      hide ChainOk, HeapOk, Matches, IndexOf;
      ChainAt(mem, heads, view, b);
      flag, lastPtr, last, buffer, i := SeekChain(view.chains[b], view.recs[b], head, key);
    }

    method SeekChain(ghost ps: seq<Addr>, ghost c: seq<Rec>, head: Addr, key: Key)
      returns (flag: bool, lastPtr: Addr, last: Entry, buffer: Entry, ghost i: nat)
      requires ChainOk(mem, ps, c) && |ps| > 0 && ps[0] == head && head in mem && !Matches(mem[head], key)
      ensures i == IndexOf(c, key) && (flag <==> i < |c|)
      ensures flag ==> 1 <= i < |ps| && ps[i - 1] in mem && ps[i] in mem
      ensures flag ==> lastPtr == ps[i - 1] && last == mem[lastPtr] && buffer == mem[ps[i]]
    {
      hide ChainOk, Matches;
      NodeMeaning(mem, ps, c, 0, key);
      buffer, last, lastPtr, i := mem[head], mem[head], head, 0;
      while buffer.next != NULL
        invariant i < |ps| && lastPtr == ps[i] && ps[i] in mem && buffer == mem[ps[i]]
        invariant forall j :: 0 <= j <= i && j < |c| ==> c[j].key != key
        decreases |ps| - i
      {
        NodeMeaning(mem, ps, c, i, key);
        NodeMeaning(mem, ps, c, i + 1, key);
        last := buffer;
        buffer := mem[buffer.next];
        i := i + 1;
        flag := KeyCompare(buffer, key);
        if flag {
          IndexIs(c, key, i);
          return;
        }
        lastPtr := last.next;
      }
      NodeMeaning(mem, ps, c, i, key);
      IndexIs(c, key, |c|);
      flag, i := false, |c|;
    }

    static lemma RemovedAt(c: seq<Rec>, key: Key, i: nat)
      requires IndexOf(c, key) == i
      ensures RemoveRec(c, key) == if i < |c| then c[..i] + c[i + 1..] else c
    {
    }

    /** The write that takes the i-th node out of its chain. */
    method RewriteLink(ghost b: nat, ghost i: nat, lastPtr: Addr, last: Entry)
      requires HeapOk(mem, heads, view) && b < |heads| && 1 <= i < |view.chains[b]|
      requires lastPtr == view.chains[b][i - 1] && lastPtr in mem && view.chains[b][i] in mem
      requires last == mem[lastPtr].(next := mem[view.chains[b][i]].next)
      modifies this`mem, this`view
      ensures HeapOk(mem, heads, view) && mem.Keys == old(mem.Keys)
      ensures i < |old(view.recs)[b]|
      ensures view.recs == old(view.recs)[b := old(view.recs)[b][..i] + old(view.recs)[b][i + 1..]]
      ensures view.chains == old(view.chains)[b := old(view.chains)[b][..i] + old(view.chains)[b][i + 1..]]
    {
      SpliceOut(mem, heads, view, b, i);
      view := view.(chains := view.chains[b := view.chains[b][..i] + view.chains[b][i + 1..]],
                    recs := view.recs[b := view.recs[b][..i] + view.recs[b][i + 1..]]);
      mem := mem[lastPtr := last];
    }

    /** Address of the first entry for the key in the chain at `head`, or NULL. */
    method Scan(ghost b: nat, head: Addr, key: Key) returns (res: Addr)
      requires HeapOk(mem, heads, view) && b < |heads| && heads[b] == head
      ensures res != NULL <==> Present(view.recs[b], key)
      ensures res != NULL ==> |view.chains[b]| == |view.recs[b]| && res == view.chains[b][IndexOf(view.recs[b], key)]
    {
      hide ChainOk, HeapOk, Present, IndexOf;
      ChainAt(mem, heads, view, b);
      res := ScanChain(view.chains[b], view.recs[b], head, key);
    }

    method ScanChain(ghost ps: seq<Addr>, ghost c: seq<Rec>, head: Addr, key: Key) returns (res: Addr)
      requires ChainOk(mem, ps, c) && |ps| > 0 && ps[0] == head
      ensures res != NULL <==> Present(c, key)
      ensures res != NULL ==> |ps| == |c| && IndexOf(c, key) < |c| && res == ps[IndexOf(c, key)]
    {
      hide ChainOk, Matches, IndexOf;
      NodeMeaning(mem, ps, c, 0, key);
      var buffer, last := mem[head], head;
      ghost var i: nat := 0;
      var same := KeyCompare(buffer, key);
      while !same
        invariant i < |ps| && ps[i] in mem && buffer == mem[ps[i]] && last == ps[i]
        invariant forall j :: 0 <= j < i && j < |c| ==> c[j].key != key
        invariant same == Matches(buffer, key)
        decreases |ps| - i
      {
        NodeMeaning(mem, ps, c, i, key);
        last := buffer.next;
        if buffer.next == NULL {
          IndexIs(c, key, |c|);
          return NULL;
        }
        NodeMeaning(mem, ps, c, i + 1, key);
        buffer := mem[buffer.next];
        same := KeyCompare(buffer, key);
        i := i + 1;
      }
      NodeMeaning(mem, ps, c, i, key);
      IndexIs(c, key, i);
      return last;
    }

    /** Where the key's first record lies, or NULL. */
    method Lookup(slot: nat, key: Key) returns (res: Addr)
      requires Valid() && slot < |prestored|
      ensures res != NULL <==> Present(view.recs[BucketFor(slot, key)], key)
      ensures res != NULL ==> res in mem && mem[res].val == ValueOf(view.recs[BucketFor(slot, key)], key)
    {
      var head := BucketHead(slot, key);
      res := Scan(BucketFor(slot, key), head, key);
      if res != NULL {
        assert ChainOk(mem, view.chains[BucketFor(slot, key)], view.recs[BucketFor(slot, key)]);
      }
    }

    /** Returns the key's entry if there is one, and otherwise adds the record and returns NULL. */
    method GetOrInsert(slot: nat, key: Key, meta: Metadata, val: nat) returns (res: Addr)
      requires Valid() && slot < |prestored|
      modifies this`mem, this`view, this`prestored, alloc`cur, alloc`availSize
      ensures Valid() && |prestored| == old(|prestored|)
      ensures res == NULL <==> !Present(old(view.recs)[BucketFor(slot, key)], key)
      ensures res != NULL ==>
                view == old(view) && mem == old(mem) && prestored == old(prestored)
                && |view.chains[BucketFor(slot, key)]| == |view.recs[BucketFor(slot, key)]|
                && res == view.chains[BucketFor(slot, key)][IndexOf(view.recs[BucketFor(slot, key)], key)]
      ensures res == NULL ==>
                view.recs == old(view.recs)[BucketFor(slot, key) :=
                  Placed(old(view.recs)[BucketFor(slot, key)], Rec(key, val, meta), old(alloc.availSize) >= ENTRY_SIZE)]
                && view.chains == old(view.chains)[BucketFor(slot, key) :=
                  PlacedChain(old(view.recs)[BucketFor(slot, key)], old(view.chains)[BucketFor(slot, key)],
                              old(alloc.cur), old(alloc.availSize) >= ENTRY_SIZE)]
                && prestored == AddUsed(old(prestored), slot, 1)
      ensures old(Counted()) && (old(view.recs)[BucketFor(slot, key)] == [] || old(alloc.availSize) >= ENTRY_SIZE) ==>
              Counted()
      ensures Does(Size(), old(Snapshot()),
                   Op.GetOrInsert(slot, key, val, meta, old(alloc.availSize) >= ENTRY_SIZE, old(alloc.cur), res),
                     Snapshot())
    {
      var head := BucketHead(slot, key);
      res := Scan(BucketFor(slot, key), head, key);
      if res == NULL {
        ghost var descs, recs := prestored, view.recs;
        Place(BucketFor(slot, key), head, key, val, Some(meta));
        AdjustUsed(slot, 1);
        CountsPlaced(descs, recs, Size(), slot, LocalBucket(key, Size()), Rec(key, val, meta),
                     old(alloc.availSize) >= ENTRY_SIZE);
      }
    }

    /** Overwrites value and metadata of the entry at an address obtained from this index. */
    method UpdateWithEntryAddr(entry: Addr, meta: Metadata, val: nat, ghost b: nat, ghost i: nat)
      requires Valid() && b < |view.chains| && i < |view.recs[b]| && |view.chains[b]| == |view.recs[b]|
      requires entry == view.chains[b][i]
      modifies this`mem, this`view
      ensures Valid()
      ensures view.chains == old(view.chains)
      ensures view.recs == old(view.recs)[b := old(view.recs[b])[i := old(view.recs[b])[i].(val := val, meta := meta)]]
      ensures old(Counted()) ==> Counted()
      ensures forall slot, key :: FirstEntry(Size(), old(Snapshot()), slot, key, b, i) ==>
                Does(Size(), old(Snapshot()), Op.Update(slot, key, entry, val, meta), Snapshot())
    {
      assert ChainOk(mem, view.chains[b], view.recs[b]);
      assert entry in mem;
      hide StoreOk, ChainOk;
      var buffer := mem[entry];
      buffer := buffer.(val := val, meta := meta);
      StoreOverwritten(spaceAddr, spaceSize, alloc.start, alloc.cur, mem, prestored, heads, view, b, i, val, meta);
      UpdateDoes(Size(), Snapshot(), b, i, val, meta);
      hide Does, FirstEntry;
      CountsUpdated(prestored, view.recs, Size(), b, view.recs[b][i := view.recs[b][i].(val := val, meta := meta)]);
      mem := mem[entry := buffer];
      view := view.(recs := view.recs[b := view.recs[b][i := view.recs[b][i].(val := val, meta := meta)]]);
    }

    /** The i-th record of bucket b is the first one of the key in the index at the slot. */
    static ghost predicate FirstEntry(size: nat, s: Snap, slot: nat, key: Key, b: nat, i: nat)
      requires size > 0
    {
      b == Home(slot, key, size) && b < |s.recs| == |s.chains| && |s.chains[b]| == |s.recs[b]| && i < |s.recs[b]|
        && IndexOf(s.recs[b], key) == i
    }

    static lemma UpdateDoes(size: nat, s: Snap, b: nat, i: nat, val: nat, meta: Metadata)
      requires size > 0 && b < |s.recs| == |s.chains| && i < |s.recs[b]| == |s.chains[b]|
      ensures forall slot, key :: FirstEntry(size, s, slot, key, b, i) ==>
                Does(size, s, Op.Update(slot, key, s.chains[b][i], val, meta),
                     s.(recs := s.recs[b := s.recs[b][i := s.recs[b][i].(val := val, meta := meta)]]))
    {
    }

    static lemma PackedSameKeys(before: Memory, after: Memory, free: Addr, start: Addr, cur: Addr)
      requires Packed(before, free, start, cur) && after.Keys == before.Keys
      ensures Packed(after, free, start, cur)
    {
    }

    static lemma StoreOverwritten(spaceAddr: Addr, spaceSize: nat, start: Addr, cur: Addr, mem: Memory,
                                  descs: seq<IndexDesc>, heads: seq<Addr>, view: View, b: nat, i: nat, val: nat,
                                    meta: Metadata)
      requires SpaceOk(spaceAddr, spaceSize) && StoreOk(spaceAddr, spaceSize, start, cur, mem, descs, heads, view)
      requires b < |view.chains| && b < |view.recs| && i < |view.recs[b]| && |view.chains[b]| == |view.recs[b]|
      requires view.chains[b][i] in mem
      ensures StoreOk(spaceAddr, spaceSize, start, cur,
                      mem[view.chains[b][i] := mem[view.chains[b][i]].(val := val, meta := meta)], descs, heads,
                      view.(recs := view.recs[b := view.recs[b][i := view.recs[b][i].(val := val, meta := meta)]]))
    {
      assert |view.chains| == |heads|;
      hide DescsOk, HeapOk, ChainOk, Packed;
      Overwrite(mem, heads, view, b, i, val, meta);
      PackedSameKeys(mem, mem[view.chains[b][i] := mem[view.chains[b][i]].(val := val, meta := meta)],
                     SlotBase(spaceAddr, spaceSize, |descs|), start, cur);
      HomedUpdate(view.recs, BucketsPerIndex(spaceSize), b,
                  view.recs[b][i := view.recs[b][i].(val := val, meta := meta)]);
    }

    /** The slot of the first index created under `id`. */
    method Check(id: int) returns (slot: Option<nat>)
      ensures slot == FindIndex(prestored, id)
    {
      for j := 0 to |prestored|
        invariant forall i :: 0 <= i < j ==> prestored[i].id != id
      {
        if id == prestored[j].id {
          FindIndexIs(prestored, id, j);
          return Some(j);
        }
      }
      FindIndexIs(prestored, id, |prestored|);
      return None;
    }
  }

  /** First descriptor with the id. */
  function FindIndex(descs: seq<IndexDesc>, id: int): (slot: Option<nat>)
    ensures slot.Some? ==> slot.value < |descs| && descs[slot.value].id == id
  {
    if descs == [] then None else
    if descs[0].id == id then Some(0) else
      var rest := FindIndex(descs[1..], id);
      if rest.Some? then Some(rest.value + 1) else None
  }

  lemma {:induction false} FindIndexIs(descs: seq<IndexDesc>, id: int, j: nat)
    requires j <= |descs| && forall i :: 0 <= i < j ==> descs[i].id != id
    requires j < |descs| ==> descs[j].id == id
    ensures FindIndex(descs, id) == if j < |descs| then Some(j) else None
  {
    if j > 0 {
      assert forall i :: 0 <= i < j - 1 ==> descs[1..][i] == descs[i + 1];
      FindIndexIs(descs[1..], id, j - 1);
    }
  }
}
