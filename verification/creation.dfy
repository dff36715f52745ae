/** Creating an index on a set of DPUs: what the create launch and the store's Create leave of a DPU, and what they
    mean for the stored map. */
module Creation {
  import opened Util
  import opened Entries
  import opened BucketSpec
  import opened ChainHeap
  import opened IndexLayout
  import opened PrimaryIndex
  import opened CreateLaunch
  import opened Batches
  import opened Tasklets
  import opened Routing
  import opened DpuSet
  import opened History

  // --- A create on one DPU ------------------------------------------------------------------

  /** One DPU between launches: where its index space and its nodes lie, its mutex pool, its indexes and bucket heads,
      and what launches change. */
  datatype Unit = Unit(spaceAddr: Addr, spaceSize: nat, start: Addr, pool: seq<nat>,
                       descs: seq<IndexDesc>, heads: seq<Addr>, dpu: Dpu)

  ghost predicate UnitHas(u: Unit, view: View) {
    && SpaceOk(u.spaceAddr, u.spaceSize) && u.spaceAddr + u.spaceSize <= u.start <= u.dpu.cur
    && |u.pool| == BucketsPerIndex(u.spaceSize)
    && StoreOk(u.spaceAddr, u.spaceSize, u.start, u.dpu.cur, u.dpu.mem, u.descs, u.heads, view)
  }

  ghost predicate UnitOk(u: Unit) {
    exists view :: UnitHas(u, view)
  }

  function SiteOf(u: Unit): Site
    requires EntriesPerSlot(u.spaceSize) >= 1
  {
    Site(u.descs, u.heads, BucketsPerIndex(u.spaceSize), u.pool)
  }

  /** Units that differ at most in their indexes and in what launches change. */
  predicate SamePlace(u: Unit, u': Unit) {
    u' == u.(descs := u'.descs, heads := u'.heads, dpu := u'.dpu)
  }

  /** One more index under `id`, with empty buckets; all other records stay. */
  ghost predicate CreatesIn(u: Unit, view: View, id: int, u': Unit, view': View) {
    && UnitHas(u, view) && UnitHas(u', view') && SamePlace(u, u')
    && |u'.descs| == |u.descs| + 1 && u'.descs == u.descs + [u'.descs[|u.descs|]] && u'.descs[|u.descs|].id == id
    && u'.dpu.avail == u.dpu.avail
    && view'.recs == view.recs + seq(BucketsPerIndex(u.spaceSize), _ => [])
  }

  ghost predicate Creates(u: Unit, id: int, u': Unit) {
    exists view, view' :: CreatesIn(u, view, id, u', view')
  }

  // --- The store's Create -------------------------------------------------------------------

  ghost function UnitOf(store: PrimaryIndexStore, pool: seq<nat>): Unit
    reads store, store.alloc
  {
    Unit(store.spaceAddr, store.spaceSize, store.alloc.start, pool, store.prestored, store.heads,
         Dpu(store.mem, store.alloc.cur, store.alloc.availSize))
  }

  /** The sequential create makes exactly the unit that `Creates` describes. */
  method CreateInStore(store: PrimaryIndexStore, id: int, tasklets: nat, ghost pool: seq<nat>)
    returns (slot: Option<nat>)
    requires store.Valid() && tasklets > 0 && |pool| == store.Size()
    modifies store`mem, store`prestored, store`heads, store`view
    ensures store.Valid() && (slot.None? <==> old(|store.prestored|) == 32)
    ensures slot.Some? ==> CreatesIn(old(UnitOf(store, pool)), old(store.view), id, UnitOf(store, pool), store.view)
  {
    hide StoreOk;
    slot := store.Create(id, tasklets);
  }

  // --- The create launch --------------------------------------------------------------------

  function ConfigOf(u: Unit, id: int): CreateConfig {
    CreateConfig(id, u.spaceAddr, u.spaceSize)
  }

  /** Heads of the buckets a create adds. */
  function NewHeads(u: Unit, id: int): (r: seq<Addr>)
    requires EntriesPerSlot(u.spaceSize) >= 1
    ensures |r| == ToClear(ConfigOf(u, id), u.descs)
    ensures forall l :: 0 <= l < |r| ==> r[l] == EntryAt(BaseFor(ConfigOf(u, id), u.descs), l)
  {
    var n, base := ToClear(ConfigOf(u, id), u.descs), BaseFor(ConfigOf(u, id), u.descs);
    seq(n, l requires 0 <= l < n => EntryAt(base, l))
  }

  /** A create launch on a unit from its start to its end, under some schedule. */
  ghost predicate CreateRuns(u: Unit, id: int, run: seq<CreateState>, who: seq<nat>, u': Unit)
    requires EntriesPerSlot(u.spaceSize) >= 1
  {
    && IsCreateRun(ConfigOf(u, id), run, who)
    && CreateStart(run[0]) && run[0].mem == u.dpu.mem && run[0].descs == u.descs
    && CreateDone(run[|who|])
    && u' == u.(descs := run[|who|].descs, heads := u.heads + NewHeads(u, id), dpu := u.dpu.(mem := run[|who|].mem))
  }

  /** Clearing from end to end is what registering a slot asks for. */
  lemma ClearedUpTo(mem: Memory, base: Addr, n: nat)
    ensures PrimaryIndexStore.Cleared(mem, ClearAll(mem, base, UpTo(n)), base, 0, n)
    ensures forall i :: 0 <= i < n ==>
              EntryAt(base, i) in ClearAll(mem, base, UpTo(n))
              && ClearAll(mem, base, UpTo(n))[EntryAt(base, i)] == EMPTY_ENTRY
  {
    hide ClearAll;
    var after := ClearAll(mem, base, UpTo(n));
    forall a: Addr
      ensures a in after <==> a in mem || exists i :: 0 <= i < n && a == EntryAt(base, i)
      ensures a in after && !(exists i :: 0 <= i < n && a == EntryAt(base, i)) ==> after[a] == mem[a]
    {
      ClearAllIs(mem, base, UpTo(n), a);
      UpToMembers(n);
    }
    forall i | 0 <= i < n ensures EntryAt(base, i) in after && after[EntryAt(base, i)] == EMPTY_ENTRY {
      ClearAllIs(mem, base, UpTo(n), EntryAt(base, i));
      UpToMembers(n);
    }
  }

  lemma UpToMembers(n: nat)
    ensures forall i: nat :: i in UpTo(n) <==> i < n
  {
    forall i: nat ensures i in UpTo(n) <==> i < n {
      if i < n { assert UpTo(n)[i] == i; }
    }
  }

  /** Every finished create launch creates the index, or changes nothing when all slots are taken, whatever the
      interleaving. */
  lemma CreateRunCreates(u: Unit, id: int, run: seq<CreateState>, who: seq<nat>, u': Unit)
    requires UnitOk(u) && EntriesPerSlot(u.spaceSize) >= 1 && CreateRuns(u, id, run, who, u')
    ensures if |u.descs| < MAX_INDEXES then Creates(u, id, u') else u' == u
  {
    hide StoreOk, CreateStep, CreateStart, CreateDone, ClearAll, SlotBase, BucketsPerIndex, PrimaryIndexStore.Cleared;
    var view :| UnitHas(u, view);
    var cfg := ConfigOf(u, id);
    CreateEnds(cfg, run, who);
    if |u.descs| < MAX_INDEXES {
      var desc := DescAt(cfg, |u.descs|);
      ClearedUpTo(u.dpu.mem, desc.buckets, desc.bucketsSize);
      var more, view' := PrimaryIndexStore.RegisterSlot(u.spaceAddr, u.spaceSize, u.start, u.dpu.cur, u.dpu.mem,
                                                        u'.dpu.mem,
                                                        u.descs, u.heads, view, desc);
      assert more == NewHeads(u, id);
      assert view.recs + seq(desc.bucketsSize, i => []) == view.recs + seq(BucketsPerIndex(u.spaceSize), _ => []);
      assert CreatesIn(u, view, id, u', view');
    } else {
      NothingToClear(u.dpu.mem, BaseFor(cfg, u.descs));
      assert u.heads + NewHeads(u, id) == u.heads;
    }
  }

  lemma NothingToClear(mem: Memory, base: Addr)
    ensures ClearAll(mem, base, UpTo(0)) == mem
  {
  }

  // --- Values -------------------------------------------------------------------------------

  lemma {:induction false} FindIndexAppend(descs: seq<IndexDesc>, desc: IndexDesc, id: int)
    ensures FindIndex(descs + [desc], id) ==
            if FindIndex(descs, id).Some? then FindIndex(descs, id) else if desc.id == id then Some(|descs|) else None
  {
    if descs != [] {
      assert (descs + [desc])[1..] == descs[1..] + [desc];
      FindIndexAppend(descs[1..], desc, id);
    }
  }

  lemma UnitIsDpu(u: Unit, view: View)
    requires UnitHas(u, view)
    ensures SiteOk(SiteOf(u)) && IndexIn(SiteOf(u), u.dpu, view)
    ensures |view.recs| == |u.heads| == |u.descs| * BucketsPerIndex(u.spaceSize)
  {
    hide HeapOk, Homed, Packed, BucketsPerIndex, SlotBase, IndexIn;
    StoreIsDpu(u.spaceAddr, u.spaceSize, u.start, u.dpu.cur, u.dpu.mem, u.descs, u.heads, view, u.pool, u.dpu.avail);
    HeapSizes(u.dpu.mem, u.heads, view);
  }

  /** The values under a key are those of its bucket's records. */
  lemma UnitValues(u: Unit, view: View, id: int, key: Key) returns (b: nat)
    requires UnitHas(u, view) && FindIndex(u.descs, id).Some?
    ensures var size := BucketsPerIndex(u.spaceSize);
            b == BucketAt(FindIndex(u.descs, id).value, size, LocalBucket(key, size))
    ensures b < |u.heads| == |view.recs| && SiteOk(SiteOf(u))
            && DpuValues(SiteOf(u), u.dpu, id, key) == Hits(view.recs[b], key)
  {
    UnitIsDpu(u, view);
    hide UnitHas, LocalBucket, Hits, Values, BucketsPerIndex, HeapOk, Homed;
    var size := BucketsPerIndex(u.spaceSize);
    b := BucketAt(FindIndex(u.descs, id).value, size, LocalBucket(key, size));
    BucketAtBounds(FindIndex(u.descs, id).value, size, LocalBucket(key, size), |u.descs|);
    ValuesAreHits(Config(LookupOp, u.descs, u.heads, size, u.pool, 0, []), u.dpu.mem, u.dpu.cur, view);
  }

  /** A create changes no value of an index that was there, and a new index has none. */
  lemma DpuCreate(u: Unit, id: int, u': Unit, other: int, key: Key)
    requires Creates(u, id, u') && EntriesPerSlot(u.spaceSize) >= 1 && EntriesPerSlot(u'.spaceSize) >= 1
    ensures SiteOk(SiteOf(u)) && SiteOk(SiteOf(u'))
    ensures FindIndex(u'.descs, other).Some? <==> FindIndex(u.descs, other).Some? || other == id
    ensures FindIndex(u.descs, other).Some? ==>
              DpuValues(SiteOf(u'), u'.dpu, other, key) == DpuValues(SiteOf(u), u.dpu, other, key)
    ensures FindIndex(u.descs, id).None? ==> DpuValues(SiteOf(u'), u'.dpu, id, key) == multiset{}
  {
    hide UnitHas, LocalBucket, Hits, DpuValues, BucketsPerIndex;
    var view, view' :| CreatesIn(u, view, id, u', view');
    FindIndexAppend(u.descs, u'.descs[|u.descs|], other);
    FindIndexAppend(u.descs, u'.descs[|u.descs|], id);
    UnitIsDpu(u, view);
    UnitIsDpu(u', view');
    if FindIndex(u.descs, id).None? {
      var added := UnitValues(u', view', id, key);
      assert view'.recs[added] == [];
      NoHits(key);
    }
    if FindIndex(u.descs, other).Some? {
      var b := UnitValues(u, view, other, key);
      var b' := UnitValues(u', view', other, key);
      assert view'.recs[b] == view.recs[b];
    }
  }

  lemma NoHits(key: Key)
    ensures Hits([], key) == multiset{}
  {
  }

  // --- A create on every DPU ----------------------------------------------------------------

  function SitesOf(units: seq<Unit>): (r: seq<Site>)
    requires forall d :: 0 <= d < |units| ==> EntriesPerSlot(units[d].spaceSize) >= 1
    ensures |r| == |units| && forall d :: 0 <= d < |r| ==> r[d] == SiteOf(units[d])
  {
    seq(|units|, d requires 0 <= d < |units| => SiteOf(units[d]))
  }

  function DpusOf(units: seq<Unit>): (r: seq<Dpu>)
    ensures |r| == |units| && forall d :: 0 <= d < |r| ==> r[d] == units[d].dpu
  {
    seq(|units|, d requires 0 <= d < |units| => units[d].dpu)
  }

  /** A set of DPUs, each with room for at least one bucket per index. */
  ghost predicate Spaced(units: seq<Unit>) {
    |units| == NR_DPUS && forall d :: 0 <= d < NR_DPUS ==> EntriesPerSlot(units[d].spaceSize) >= 1
  }

  ghost predicate UnitsOk(units: seq<Unit>) {
    Spaced(units) && forall d :: 0 <= d < NR_DPUS ==> UnitOk(units[d])
  }

  lemma UnitsAreSystem(units: seq<Unit>)
    requires UnitsOk(units)
    ensures SystemOk(SitesOf(units), DpusOf(units))
  {
    hide UnitHas, IndexIn, SiteOk;
    forall d | 0 <= d < NR_DPUS ensures SiteOk(SiteOf(units[d])) && DpuOk(SiteOf(units[d]), units[d].dpu) {
      assert UnitOk(units[d]);
      var view :| UnitHas(units[d], view);
      UnitIsDpu(units[d], view);
      assert IndexIn(SiteOf(units[d]), units[d].dpu, view);
    }
  }

  /** A set of DPUs without indexes holds the empty map. */
  lemma NoIndexesIsEmptyMap(units: seq<Unit>)
    requires UnitsOk(units) && forall d :: 0 <= d < NR_DPUS ==> units[d].descs == []
    ensures SystemOk(SitesOf(units), DpusOf(units)) && Represents(SitesOf(units), DpusOf(units), map[])
  {
    hide UnitOk, SystemOk, KeyValues;
    UnitsAreSystem(units);
    forall id: int ensures !Created(SitesOf(units), id) {
      assert FindIndex(SitesOf(units)[0].descs, id).None?;
    }
  }

  /** An id that either all DPUs know or none does, and then without keys in the map. */
  ghost predicate KnownOrNew(units: seq<Unit>, id: int, m: Store)
    requires Spaced(units)
  {
    || Created(SitesOf(units), id)
    || ((forall d :: 0 <= d < NR_DPUS ==> FindIndex(units[d].descs, id).None?) && forall key: Key :: (id, key) !in m)
  }

  /** Creating an id on every DPU leaves the map as it is and makes the id known, new or not. */
  lemma CreateKeepsMap(units: seq<Unit>, units': seq<Unit>, id: int, m: Store)
    requires UnitsOk(units) && UnitsOk(units') && forall d :: 0 <= d < NR_DPUS ==> Creates(units[d], id, units'[d])
    requires SystemOk(SitesOf(units), DpusOf(units)) && Represents(SitesOf(units), DpusOf(units), m)
    requires KnownOrNew(units, id, m)
    ensures SystemOk(SitesOf(units'), DpusOf(units')) && Represents(SitesOf(units'), DpusOf(units'), m)
    ensures Created(SitesOf(units'), id)
  {
    hide UnitOk, SiteOk, DpuOk, DpuValues, Route, Creates;
    UnitsAreSystem(units');
    forall other: int, d | 0 <= d < NR_DPUS
      ensures FindIndex(SitesOf(units')[d].descs, other).Some? <==>
              FindIndex(SitesOf(units)[d].descs, other).Some? || other == id
    {
      DpuCreate(units[d], id, units'[d], other, [0]);
    }
    forall other: int, key: Key | Created(SitesOf(units'), other)
      ensures KeyValues(SitesOf(units'), DpusOf(units'), other, key) == ValueSet(m, other, key)
    {
      var d := Route(key);
      DpuCreate(units[d], id, units'[d], other, key);
      if other != id || Created(SitesOf(units), id) {
        assert Created(SitesOf(units), other);
        assert KeyValues(SitesOf(units), DpusOf(units), other, key) == ValueSet(m, other, key);
      }
    }
  }

  /** Where every history starts: one index fresh from its create on all DPUs holds the empty map. */
  lemma FreshIndexIsEmptyMap(units: seq<Unit>, units': seq<Unit>, id: int)
    requires UnitsOk(units) && UnitsOk(units') && forall d :: 0 <= d < NR_DPUS ==> units[d].descs == []
    requires forall d :: 0 <= d < NR_DPUS ==> Creates(units[d], id, units'[d])
    ensures SystemOk(SitesOf(units'), DpusOf(units')) && Represents(SitesOf(units'), DpusOf(units'), map[])
    ensures Created(SitesOf(units'), id)
  {
    hide UnitOk, SystemOk, Represents, Created, Creates;
    NoIndexesIsEmptyMap(units);
    CreateKeepsMap(units, units', id, map[]);
  }
}
