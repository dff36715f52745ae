/** One set of DPUs as its caller sees it: batches routed by key hash, run on every DPU under any
    interleaving, and answered by key_id. */
module DpuSet {
  import opened Util
  import opened Entries
  import opened ChainHeap
  import opened IndexLayout
  import opened PrimaryIndex
  import opened Tasklets
  import opened TaskletInvariant
  import opened TaskletTheorems
  import opened TaskletTermination
  import opened TaskletSpace
  import opened Batches
  import opened Routing

  /** What never changes about a DPU between creates: its indexes and their bucket heads. */
  datatype Site = Site(descs: seq<IndexDesc>, heads: seq<Addr>, size: nat, pool: seq<nat>)

  /** What batches change: entry memory and allocator. */
  datatype Dpu = Dpu(mem: Memory, cur: Addr, avail: nat)

  datatype Call =
    | Insert(id: int, keys: seq<Key>, vals: seq<nat>)
    | Delete(id: int, keys: seq<Key>)
    | Lookup(id: int, keys: seq<Key>)

  function OpOf(call: Call): OpType {
    match call
    case Insert(_, _, _) => InsertOp
    case Delete(_, _) => DeleteOp
    case Lookup(_, _) => LookupOp
  }

  /** An insert brings a value for every key. */
  predicate Paired(call: Call) {
    call.Insert? ==> |call.vals| == |call.keys|
  }

  /** The host can build the call's packages: every DPU's part fits its push buffer. */
  ghost predicate CallOk(call: Call) {
    Paired(call) && PackagesFit(ItemsOf(call))
  }

  /** The batch the host builds for a call. */
  function ItemsOf(call: Call): (r: seq<Item>)
    requires Paired(call)
    ensures |r| == |call.keys| && forall i :: 0 <= i < |r| ==> r[i].key == call.keys[i]
  {
    match call
    case Insert(_, keys, vals) => InsertItems(keys, vals)
    case Delete(_, keys) => DeleteItems(keys)
    case Lookup(_, keys) => LookupItems(keys)
  }

  /** DPU d's share of a call. */
  function ConfigFor(site: Site, call: Call, d: nat): Config
    requires Paired(call)
  {
    Config(OpOf(call), site.descs, site.heads, site.size, site.pool, call.id, Part(ItemsOf(call), d))
  }

  ghost predicate SiteOk(site: Site) {
    site.size > 0 && |site.pool| == site.size && |site.heads| == |site.descs| * site.size
  }

  /** The memory holds well-formed chains for the site's heads. */
  ghost predicate DpuOk(site: Site, dpu: Dpu)
    requires SiteOk(site)
  {
    exists view :: IndexIn(site, dpu, view)
  }

  ghost predicate IndexIn(site: Site, dpu: Dpu, view: View)
    requires SiteOk(site)
  {
    IndexOk(Config(LookupOp, site.descs, site.heads, site.size, site.pool, 0, []), dpu.mem, dpu.cur, view)
  }

  ghost predicate SystemOk(sites: seq<Site>, dpus: seq<Dpu>) {
    |sites| == |dpus| == NR_DPUS && forall d :: 0 <= d < NR_DPUS ==> SiteOk(sites[d]) && DpuOk(sites[d], dpus[d])
  }

  /** An index id every DPU of the set has created. */
  ghost predicate Created(sites: seq<Site>, id: int) {
    forall d :: 0 <= d < |sites| ==> FindIndex(sites[d].descs, id).Some?
  }

  /** Allocator space a call may take on DPU d: a node for every inserted element. */
  function CallCost(call: Call, d: nat): nat
    requires Paired(call)
  {
    Cost(OpOf(call), Part(ItemsOf(call), d))
  }

  /** Enough allocator space for a call on every DPU. */
  ghost predicate Enough(dpus: seq<Dpu>, call: Call)
    requires Paired(call)
  {
    forall d :: 0 <= d < |dpus| ==> dpus[d].avail >= CallCost(call, d)
  }

  /** One DPU executes its share: some run, under some schedule, from launch until everything is done. */
  ghost predicate DpuRuns(site: Site, before: Dpu, call: Call, d: nat, run: seq<State>, who: seq<nat>, after: Dpu)
    requires Paired(call)
  {
    && IsRun(ConfigFor(site, call, d), run, who)
    && Launch(run[0]) && Dpu(run[0].mem, run[0].cur, run[0].avail) == before
    && AllDone(run[|who|]) && Dpu(run[|who|].mem, run[|who|].cur, run[|who|].avail) == after
  }

  /** The host sends a call's packages and all DPUs execute their shares. */
  ghost predicate Executed(sites: seq<Site>, before: seq<Dpu>, call: Call, runs: seq<seq<State>>, whos: seq<seq<nat>>,
                           after: seq<Dpu>) {
    && |sites| == |before| == |after| == |runs| == |whos| == NR_DPUS && CallOk(call)
    && forall d :: 0 <= d < NR_DPUS ==> DpuRuns(sites[d], before[d], call, d, runs[d], whos[d], after[d])
  }

  /** The values a DPU holds under a key in the index `id`. */
  ghost function DpuValues(site: Site, dpu: Dpu, id: int, key: Key): multiset<nat>
    requires SiteOk(site)
  {
    var slot := FindIndex(site.descs, id);
    if slot.None? then multiset{} else
      var b := BucketAt(slot.value, site.size, LocalBucket(key, site.size));
      if b < |site.heads| then Values(dpu.mem, site.heads[b], key) else multiset{}
  }

  /** The values the set holds under a key: those on the DPU the key is routed to. */
  ghost function KeyValues(sites: seq<Site>, dpus: seq<Dpu>, id: int, key: Key): multiset<nat>
    requires SystemOk(sites, dpus)
  {
    DpuValues(sites[Route(key)], dpus[Route(key)], id, key)
  }

  // --- One DPU ------------------------------------------------------------------------------

  /** What a call makes of the values of one key. */
  ghost predicate Effect(call: Call, items: seq<Item>, id: int, key: Key, before: multiset<nat>, after: multiset<nat>) {
    match call
    case Insert(_, _, _) => after == before + if id == call.id then ArgsFor(items, key) else multiset{}
    case Delete(_, _) => Deleted(before, after, if id == call.id then |ArgsFor(items, key)| else 0)
    case Lookup(_, _) => after == before
  }

  /** The bucket of a key in index `id`, and that it belongs to the batch's index only if the ids agree. */
  lemma BucketOfIndex(site: Site, call: Call, d: nat, id: int, key: Key) returns (b: nat)
    requires SiteOk(site) && Paired(call) && FindIndex(site.descs, id).Some? && FindIndex(site.descs, call.id).Some?
    ensures b < |site.heads|
    ensures forall dpu :: DpuValues(site, dpu, id, key) == Values(dpu.mem, site.heads[b], key)
    ensures b == BucketOf(ConfigFor(site, call, d), key) <==> id == call.id
  {
    hide Part, Values, LocalBucket;
    var slot, own, local := FindIndex(site.descs, id).value, FindIndex(site.descs, call.id).value,
        LocalBucket(key, site.size);
    BucketAtBounds(slot, site.size, local, |site.descs|);
    BucketAtBounds(own, site.size, local, |site.descs|);
    b := BucketAt(slot, site.size, local);
  }

  lemma Launched(site: Site, before: Dpu, call: Call, d: nat, run: seq<State>, who: seq<nat>, after: Dpu, view: View)
    requires SiteOk(site) && Paired(call) && DpuRuns(site, before, call, d, run, who, after)
             && IndexIn(site, before, view)
    requires before.avail >= CallCost(call, d)
    ensures FinishedRun(ConfigFor(site, call, d), run, who, view)
  {
    hide Launch, AllDone, Step, HeapOk, Homed, Part;
  }

  /** What a call does on one DPU, whatever the interleaving of its tasklets. */
  lemma DpuCall(site: Site, before: Dpu, call: Call, d: nat, run: seq<State>, who: seq<nat>, after: Dpu)
    requires SiteOk(site) && Paired(call) && DpuOk(site, before) && DpuRuns(site, before, call, d, run, who, after)
    requires before.avail >= CallCost(call, d)
    requires FindIndex(site.descs, call.id).Some?
    ensures DpuOk(site, after)
    ensures forall id: int, key: Key :: FindIndex(site.descs, id).Some? ==>
              Effect(call, Part(ItemsOf(call), d), id, key, DpuValues(site, before, id, key),
                     DpuValues(site, after, id, key))
  {
    hide Launch, AllDone, Step, HeapOk, Homed, Part, DpuValues, Values, BucketOf, ArgsFor;
    var view :| IndexIn(site, before, view);
    Launched(site, before, call, d, run, who, after, view);
    var cfg, items := ConfigFor(site, call, d), Part(ItemsOf(call), d);
    var view' := BatchRuns(cfg, run, who, view);
    assert IndexIn(site, after, view');
    forall id: int, key: Key | FindIndex(site.descs, id).Some?
      ensures Effect(call, items, id, key, DpuValues(site, before, id, key), DpuValues(site, after, id, key))
    {
      var b := BucketOfIndex(site, call, d, id, key);
      assert BatchEffect(cfg, b, key, Values(before.mem, site.heads[b], key), Values(after.mem, site.heads[b], key));
    }
  }

  /** The three batch theorems side by side. */
  ghost predicate BatchEffect(cfg: Config, b: nat, key: Key, before: multiset<nat>, after: multiset<nat>)
    requires cfg.size > 0
  {
    match cfg.op
    case InsertOp => after == before + if b == BucketOf(cfg, key) then ArgsFor(cfg.items, key) else multiset{}
    case DeleteOp => Deleted(before, after, if b == BucketOf(cfg, key) then |ArgsFor(cfg.items, key)| else 0)
    case LookupOp => after == before
  }

  lemma BatchRuns(cfg: Config, run: seq<State>, who: seq<nat>, view: View) returns (view': View)
    requires FinishedRun(cfg, run, who, view) && FindIndex(cfg.descs, cfg.id).Some?
    ensures IndexOk(cfg, run[|who|].mem, run[|who|].cur, view')
    ensures forall b, key: Key :: 0 <= b < |cfg.heads| ==>
              BatchEffect(cfg, b, key, Values(run[0].mem, cfg.heads[b], key), Values(run[|who|].mem, cfg.heads[b], key))
  {
    hide Launch, AllDone, Step, IndexOk, Values, BucketOf, ArgsFor;
    match cfg.op
    case InsertOp => view' := InsertBatch(cfg, run, who, view);
    case DeleteOp => view' := DeleteBatch(cfg, run, who, view);
    case LookupOp => view' := LookupBatch(cfg, run, who, view);
  }

  lemma DpuSpace(site: Site, before: Dpu, call: Call, d: nat, run: seq<State>, who: seq<nat>, after: Dpu)
    requires SiteOk(site) && Paired(call) && DpuOk(site, before) && DpuRuns(site, before, call, d, run, who, after)
    requires before.avail >= CallCost(call, d)
    ensures after.avail >= before.avail - CallCost(call, d)
  {
    hide Launch, AllDone, Step, HeapOk, Homed, Part;
    var view :| IndexIn(site, before, view);
    Launched(site, before, call, d, run, who, after, view);
    SpaceUsed(ConfigFor(site, call, d), run, who, view, |who|);
  }

  // --- The whole set ------------------------------------------------------------------------

  /** A package keeps everything a batch says about the keys of its DPU. */
  lemma {:induction false} PackageKeepsArgs(items: seq<Item>, key: Key)
    ensures ArgsFor(Part(items, Route(key)), key) == ArgsFor(items, key)
  {
    hide Route;
    if items != [] {
      var n := |items| - 1;
      PackageKeepsArgs(items[..n], key);
      assert items == items[..n] + [items[n]];
      ArgsConcat(items[..n], [items[n]], key);
      ArgsSingle(items[n], key);
      if Route(items[n].key) == Route(key) {
        ArgsConcat(Part(items[..n], Route(key)), [items[n]], key);
      } else {
        assert Part(items, Route(key)) == Part(items[..n], Route(key));
      }
    }
  }

  /** What a call does to the values of every key of every index. */
  lemma CallEffect(sites: seq<Site>, before: seq<Dpu>, call: Call, runs: seq<seq<State>>, whos: seq<seq<nat>>,
                   after: seq<Dpu>)
    requires SystemOk(sites, before) && Executed(sites, before, call, runs, whos, after)
    requires Created(sites, call.id) && Enough(before, call)
    ensures SystemOk(sites, after)
    ensures forall d :: 0 <= d < NR_DPUS ==> after[d].avail >= before[d].avail - CallCost(call, d)
    ensures forall id: int, key: Key :: Created(sites, id) ==>
              Effect(call, ItemsOf(call), id, key, KeyValues(sites, before, id, key), KeyValues(sites, after, id, key))
  {
    hide SiteOk, DpuOk, DpuRuns, DpuValues, Route, Part, ArgsFor, ItemsOf, CallCost;
    forall d | 0 <= d < NR_DPUS
      ensures DpuOk(sites[d], after[d]) && after[d].avail >= before[d].avail - CallCost(call, d)
      ensures forall id: int, key: Key :: FindIndex(sites[d].descs, id).Some? ==>
                Effect(call, Part(ItemsOf(call), d), id, key, DpuValues(sites[d], before[d], id, key),
                       DpuValues(sites[d], after[d], id, key))
    {
      DpuCall(sites[d], before[d], call, d, runs[d], whos[d], after[d]);
      DpuSpace(sites[d], before[d], call, d, runs[d], whos[d], after[d]);
    }
    forall id: int, key: Key | Created(sites, id)
      ensures Effect(call, ItemsOf(call), id, key, KeyValues(sites, before, id, key), KeyValues(sites, after, id, key))
    {
      PackageKeepsArgs(ItemsOf(call), key);
    }
  }

  /** The answers to any package that can be sent fit the DPU's result list of 2 MB, with a header of 16 and 16 bytes
      each, and the block macros' products on it fit a word. */
  lemma SentPackagesFitDpu(call: Call, d: nat, rank: nat)
    requires CallOk(call) && d < NR_DPUS && rank <= NR_SLAVES
    ensures 16 + 16 * |Part(ItemsOf(call), d)| <= 0x200000
    ensures rank * |Part(ItemsOf(call), d)| < 0x1_0000_0000
  {
    hide Part, ItemsOf;
    BlockProductFits(rank, |Part(ItemsOf(call), d)|);
  }

  // --- Where a set of DPUs comes from -------------------------------------------------------

  /** What the sequential index store keeps as its invariant is what a launch needs. */
  lemma StoreIsDpu(spaceAddr: Addr, spaceSize: nat, start: Addr, cur: Addr, mem: Memory, descs: seq<IndexDesc>,
                   heads: seq<Addr>, view: View, pool: seq<nat>, avail: nat)
    requires SpaceOk(spaceAddr, spaceSize) && StoreOk(spaceAddr, spaceSize, start, cur, mem, descs, heads, view)
    requires ENTRY_SIZE <= cur && |pool| == BucketsPerIndex(spaceSize)
    ensures SiteOk(Site(descs, heads, BucketsPerIndex(spaceSize), pool))
    ensures IndexIn(Site(descs, heads, BucketsPerIndex(spaceSize), pool), Dpu(mem, cur, avail), view)
  {
    hide HeapOk, Homed, BucketsPerIndex, SlotBase;
  }

  /** An index whose buckets are all empty, as a create leaves them, has no values. */
  lemma EmptyIndexHasNoValues(site: Site, dpu: Dpu, view: View, id: int, key: Key)
    requires SiteOk(site) && IndexIn(site, dpu, view) && FindIndex(site.descs, id).Some?
    requires forall l :: 0 <= l < site.size && BucketAt(FindIndex(site.descs, id).value, site.size, l) < |view.recs| ==>
               view.recs[BucketAt(FindIndex(site.descs, id).value, site.size, l)] == []
    ensures DpuValues(site, dpu, id, key) == multiset{}
  {
    hide HeapOk, Homed, Values, LocalBucket;
    var cfg := Config(LookupOp, site.descs, site.heads, site.size, site.pool, 0, []);
    ValuesAreHits(cfg, dpu.mem, dpu.cur, view);
  }

  // --- Calls can be executed ----------------------------------------------------------------

  const NR_SLAVES: nat := 16

  function LaunchState(dpu: Dpu): State {
    State(dpu.mem, dpu.cur, dpu.avail, map[], None, None, [], 0, 0, None, [], MPrepare,
          seq(NR_SLAVES, _ => Task(AtStart, 0, [])))
  }

  lemma DpuFinishes(site: Site, before: Dpu, call: Call, d: nat) returns (run: seq<State>, who: seq<nat>, after: Dpu)
    requires SiteOk(site) && Paired(call) && DpuOk(site, before)
    requires before.avail >= CallCost(call, d)
    ensures DpuRuns(site, before, call, d, run, who, after) && run != [] && |run[0].tasks| == 16
  {
    hide HeapOk, Homed, Part, AllDone, Step;
    var view :| IndexIn(site, before, view);
    run, who := LaunchFinishes(ConfigFor(site, call, d), LaunchState(before), view);
    after := Dpu(run[|who|].mem, run[|who|].cur, run[|who|].avail);
  }

  /** Every call the DPUs have space for can be executed to its end. */
  lemma CallFinishes(sites: seq<Site>, before: seq<Dpu>, call: Call)
    returns (runs: seq<seq<State>>, whos: seq<seq<nat>>, after: seq<Dpu>)
    requires SystemOk(sites, before) && CallOk(call) && Enough(before, call)
    ensures Executed(sites, before, call, runs, whos, after)
    ensures forall d :: 0 <= d < NR_DPUS ==> runs[d] != [] && |runs[d][0].tasks| == 16
  {
    hide SiteOk, DpuOk, DpuRuns, Part, ItemsOf;
    runs, whos, after := [], [], [];
    for d := 0 to NR_DPUS
      invariant |runs| == |whos| == |after| == d
      invariant forall e :: 0 <= e < d ==> DpuRuns(sites[e], before[e], call, e, runs[e], whos[e], after[e])
      invariant forall e :: 0 <= e < d ==> runs[e] != [] && |runs[e][0].tasks| == 16
    {
      var run, who, dpu := DpuFinishes(sites[d], before[d], call, d);
      runs, whos, after := runs + [run], whos + [who], after + [dpu];
    }
  }
}
