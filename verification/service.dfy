/** A set of DPUs in service: any history of creates and batches, from power-on, seen as a list of created ids with a
    map from ids and keys to values. */
module Service {
  import opened Util
  import opened Entries
  import opened ChainHeap
  import opened IndexLayout
  import opened PrimaryIndex
  import opened Tasklets
  import opened TaskletLayout
  import opened CreateLaunch
  import opened Batches
  import opened Routing
  import opened PullMerge
  import opened DpuSet
  import opened History
  import opened Creation

  datatype Command = Create(id: int) | Batch(call: Call)

  /** What the DPUs did for one command: their runs and schedules. */
  datatype Trace =
    | CreateTrace(creates: seq<seq<CreateState>>, schedules: seq<seq<nat>>)
    | BatchTrace(batches: seq<seq<State>>, whos: seq<seq<nat>>)

  /** The ids created so far, in order, and what is stored under them. */
  datatype Catalog = Catalog(ids: seq<int>, store: Store)

  /** What a command means: a create takes a slot as long as there is one, whether or not its id is new; a batch on
      an id that was never created does nothing. */
  function Next(c: Catalog, cmd: Command): Catalog
    requires Sendable(cmd)
  {
    match cmd
    case Create(id) => if |c.ids| < MAX_INDEXES then c.(ids := c.ids + [id]) else c
    case Batch(call) => if call.id in c.ids then c.(store := Meaning(c.store, call)) else c
  }

  predicate Sendable(cmd: Command) {
    cmd.Batch? ==> Paired(cmd.call)
  }

  /** An insert under a created id keeps its keys distinct. */
  ghost predicate Distinct(c: Catalog, cmd: Command) {
    cmd.Batch? && cmd.call.id in c.ids ==> KeepsDistinct(c.store, cmd.call)
  }

  function Ids(descs: seq<IndexDesc>): (r: seq<int>)
    ensures |r| == |descs| && forall i :: 0 <= i < |r| ==> r[i] == descs[i].id
  {
    seq(|descs|, i requires 0 <= i < |descs| => descs[i].id)
  }

  /** The set of DPUs holds exactly the catalog. */
  ghost predicate Serves(units: seq<Unit>, c: Catalog) {
    && UnitsOk(units) && (forall d :: 0 <= d < NR_DPUS ==> Ids(units[d].descs) == c.ids)
    && (forall k :: k in c.store ==> k.0 in c.ids)
    && SystemOk(SitesOf(units), DpusOf(units)) && Represents(SitesOf(units), DpusOf(units), c.store)
  }

  /** Every DPU carries the command out, under a schedule of its own. */
  ghost predicate Performed(units: seq<Unit>, cmd: Command, trace: Trace, units': seq<Unit>)
    requires Spaced(units)
  {
    match cmd
    case Create(id) =>
      && trace.CreateTrace? && |trace.creates| == |trace.schedules| == |units'| == NR_DPUS
      && forall d :: 0 <= d < NR_DPUS ==> CreateRuns(units[d], id, trace.creates[d], trace.schedules[d], units'[d])
    case Batch(call) =>
      && trace.BatchTrace? && |units'| == NR_DPUS
      && (forall d :: 0 <= d < NR_DPUS ==> units'[d] == units[d].(dpu := units'[d].dpu))
      && Executed(SitesOf(units), DpusOf(units), call, trace.batches, trace.whos, DpusOf(units'))
  }

  // --- Ids ----------------------------------------------------------------------------------

  lemma {:induction false} FindsIds(descs: seq<IndexDesc>, id: int)
    ensures FindIndex(descs, id).Some? <==> id in Ids(descs)
  {
    if descs != [] {
      FindsIds(descs[1..], id);
      assert Ids(descs) == [descs[0].id] + Ids(descs[1..]);
    }
  }

  /** An id is known to all DPUs or to none. */
  lemma KnownIds(units: seq<Unit>, c: Catalog, id: int)
    requires Spaced(units) && forall d :: 0 <= d < NR_DPUS ==> Ids(units[d].descs) == c.ids
    ensures Created(SitesOf(units), id) <==> id in c.ids
    ensures id !in c.ids ==> forall d :: 0 <= d < NR_DPUS ==> FindIndex(units[d].descs, id).None?
  {
    forall d | 0 <= d < NR_DPUS ensures FindIndex(units[d].descs, id).Some? <==> id in c.ids {
      FindsIds(units[d].descs, id);
    }
    assert FindIndex(SitesOf(units)[0].descs, id).Some? <==> id in c.ids;
  }

  // --- Creates ------------------------------------------------------------------------------

  lemma CreatedUnit(u: Unit, id: int, u': Unit)
    requires Creates(u, id, u')
    ensures UnitOk(u') && EntriesPerSlot(u'.spaceSize) >= 1 && Ids(u'.descs) == Ids(u.descs) + [id]
    ensures u'.dpu.avail == u.dpu.avail
  {
    hide StoreOk;
    var view, view' :| CreatesIn(u, view, id, u', view');
    assert UnitHas(u', view');
  }

  lemma CreateServes(units: seq<Unit>, id: int, trace: Trace, units': seq<Unit>, c: Catalog)
    requires Serves(units, c) && Performed(units, Create(id), trace, units')
    ensures Serves(units', Next(c, Create(id)))
    ensures forall d :: 0 <= d < NR_DPUS ==> units'[d].dpu.avail == units[d].dpu.avail
  {
    hide UnitOk, SystemOk, Represents, CreateRuns, Creates, Ids;
    forall d | 0 <= d < NR_DPUS
      ensures if |c.ids| < MAX_INDEXES then Creates(units[d], id, units'[d]) else units'[d] == units[d]
    {
      SameLength(units[d].descs, c.ids);
      CreateRunCreates(units[d], id, trace.creates[d], trace.schedules[d], units'[d]);
    }
    if |c.ids| < MAX_INDEXES {
      forall d | 0 <= d < NR_DPUS
        ensures UnitOk(units'[d]) && EntriesPerSlot(units'[d].spaceSize) >= 1 && Ids(units'[d].descs) == c.ids + [id]
        ensures units'[d].dpu.avail == units[d].dpu.avail
      {
        CreatedUnit(units[d], id, units'[d]);
      }
      KnownIds(units, c, id);
      CreateKeepsMap(units, units', id, c.store);
    } else {
      assert units' == units;
    }
  }

  lemma SameLength(descs: seq<IndexDesc>, ids: seq<int>)
    requires Ids(descs) == ids
    ensures |descs| == |ids|
  {
  }

  // --- Batches ------------------------------------------------------------------------------

  /** After a batch a unit is in order again, with its entries where they belong. */
  lemma BatchUnit(u: Unit, call: Call, d: nat, run: seq<State>, who: seq<nat>, u': Unit)
    requires UnitOk(u) && EntriesPerSlot(u.spaceSize) >= 1 && u' == u.(dpu := u'.dpu)
    requires Paired(call) && DpuRuns(SiteOf(u), u.dpu, call, d, run, who, u'.dpu) && u.dpu.avail >= CallCost(call, d)
    ensures UnitOk(u')
  {
    hide Launch, AllDone, Step, HeapOk, Homed, Packed, DescsOk, Part, BucketsPerIndex, IndexIn;
    var view :| UnitHas(u, view);
    UnitIsDpu(u, view);
    var cfg, free := ConfigFor(SiteOf(u), call, d), SlotBase(u.spaceAddr, u.spaceSize, |u.descs|);
    Launched(SiteOf(u), u.dpu, call, d, run, who, u'.dpu, view);
    EntriesStayApart(cfg, run, who, view, |who|, free, u.start);
    var log, metas, view' := Serialised(cfg, run, who, view);
    assert UnitHas(u', view');
  }

  /** A batch on an id the DPU does not know changes no value and answers nothing. */
  lemma DpuUnknown(site: Site, before: Dpu, call: Call, d: nat, run: seq<State>, who: seq<nat>, after: Dpu)
    requires SiteOk(site) && Paired(call) && DpuOk(site, before) && DpuRuns(site, before, call, d, run, who, after)
    requires before.avail >= CallCost(call, d) && FindIndex(site.descs, call.id).None?
    ensures DpuOk(site, after)
    ensures forall id: int, key: Key :: DpuValues(site, after, id, key) == DpuValues(site, before, id, key)
    ensures call.Lookup? ==> run[|who|].resultSize == run[|who|].nnz == 0
  {
    hide Launch, AllDone, Step, HeapOk, Homed, Part, Values, LocalBucket;
    var view :| IndexIn(site, before, view);
    Launched(site, before, call, d, run, who, after, view);
    var cfg := ConfigFor(site, call, d);
    var log, metas, view' := Serialised(cfg, run, who, view);
    assert IndexIn(site, after, view');
    ValuesAreHits(cfg, before.mem, before.cur, view);
    ValuesAreHits(cfg, after.mem, after.cur, view');
    forall id: int, key: Key ensures DpuValues(site, after, id, key) == DpuValues(site, before, id, key) {
    }
    if call.Lookup? { var _ := LookupBatch(cfg, run, who, view); }
  }

  lemma UnknownCall(sites: seq<Site>, before: seq<Dpu>, call: Call, runs: seq<seq<State>>, whos: seq<seq<nat>>,
                    after: seq<Dpu>, m: Store)
    requires SystemOk(sites, before) && Represents(sites, before, m) && Executed(sites, before, call, runs, whos, after)
    requires Enough(before, call) && forall d :: 0 <= d < NR_DPUS ==> FindIndex(sites[d].descs, call.id).None?
    ensures SystemOk(sites, after) && Represents(sites, after, m)
    ensures forall d :: 0 <= d < NR_DPUS ==> after[d].avail >= before[d].avail - CallCost(call, d)
    ensures forall d :: 0 <= d < NR_DPUS ==> |runs[d]| == |whos[d]| + 1
    ensures call.Lookup? ==>
              forall d :: 0 <= d < NR_DPUS ==> runs[d][|whos[d]|].resultSize == runs[d][|whos[d]|].nnz == 0
  {
    hide SiteOk, DpuOk, DpuRuns, DpuValues, Route, CallCost, CallOk, ValueSet;
    RunsNotEmpty(sites, before, call, runs, whos, after);
    assert Paired(call) by { CallsArePaired(call); }
    forall d | 0 <= d < NR_DPUS
      ensures DpuOk(sites[d], after[d]) && after[d].avail >= before[d].avail - CallCost(call, d)
      ensures forall id: int, key: Key ::
                DpuValues(sites[d], after[d], id, key) == DpuValues(sites[d], before[d], id, key)
      ensures call.Lookup? ==> runs[d][|whos[d]|].resultSize == runs[d][|whos[d]|].nnz == 0
    {
      DpuUnknown(sites[d], before[d], call, d, runs[d], whos[d], after[d]);
      DpuSpace(sites[d], before[d], call, d, runs[d], whos[d], after[d]);
    }
    forall id: int, key: Key | Created(sites, id)
      ensures KeyValues(sites, after, id, key) == ValueSet(m, id, key)
    {
      assert KeyValues(sites, before, id, key) == ValueSet(m, id, key);
    }
  }

  lemma CallsArePaired(call: Call)
    requires CallOk(call)
    ensures Paired(call)
  {
  }

  lemma MeaningIds(m: Store, call: Call, ids: seq<int>)
    requires Paired(call) && call.id in ids && forall k :: k in m ==> k.0 in ids
    ensures forall k :: k in Meaning(m, call) ==> k.0 in ids
  {
    if call.Insert? { PutAllIds(m, call.id, call.keys, call.vals, ids); }
  }

  lemma {:induction false} PutAllIds(m: Store, id: int, keys: seq<Key>, vals: seq<nat>, ids: seq<int>)
    requires |vals| == |keys| && id in ids && forall k :: k in m ==> k.0 in ids
    ensures forall k :: k in PutAll(m, id, keys, vals) ==> k.0 in ids
  {
    if keys != [] { PutAllIds(m, id, keys[..|keys| - 1], vals[..|keys| - 1], ids); }
  }

  lemma BatchServes(units: seq<Unit>, call: Call, trace: Trace, units': seq<Unit>, c: Catalog)
    requires Serves(units, c) && Performed(units, Batch(call), trace, units')
    requires Enough(DpusOf(units), call) && Distinct(c, Batch(call))
    ensures Paired(call) && Serves(units', Next(c, Batch(call)))
    ensures forall d :: 0 <= d < NR_DPUS ==> units'[d].dpu.avail >= units[d].dpu.avail - CallCost(call, d)
  {
    hide UnitOk, SystemOk, Represents, Created, Ids, DpuRuns, CallCost, KeepsDistinct, Meaning, CallOk;
    var sites, runs, whos := SitesOf(units), trace.batches, trace.whos;
    CallsArePaired(call);
    forall d | 0 <= d < NR_DPUS ensures UnitOk(units'[d]) {
      assert DpuRuns(sites[d], units[d].dpu, call, d, runs[d], whos[d], units'[d].dpu);
      BatchUnit(units[d], call, d, runs[d], whos[d], units'[d]);
    }
    assert SitesOf(units') == sites;
    KnownIds(units, c, call.id);
    if call.id in c.ids {
      CallRefines(sites, DpusOf(units), call, runs, whos, DpusOf(units'), c.store);
      MeaningIds(c.store, call, c.ids);
    } else {
      UnknownCall(sites, DpusOf(units), call, runs, whos, DpusOf(units'), c.store);
    }
  }

  // --- Histories ----------------------------------------------------------------------------

  /** The catalog after the first n commands. */
  function CatalogAfter(c: Catalog, cmds: seq<Command>, n: nat): Catalog
    requires n <= |cmds| && forall i :: 0 <= i < |cmds| ==> Sendable(cmds[i])
  {
    if n == 0 then c else Next(CatalogAfter(c, cmds, n - 1), cmds[n - 1])
  }

  /** Commands carried out one after the other; inserts keep keys distinct. */
  ghost predicate IsService(states: seq<seq<Unit>>, cmds: seq<Command>, traces: seq<Trace>, c: Catalog) {
    && |states| == |cmds| + 1 && |traces| == |cmds| && (forall i :: 0 <= i < |cmds| ==> Sendable(cmds[i]))
    && (forall i :: 0 <= i < |cmds| ==> Spaced(states[i]) && Performed(states[i], cmds[i], traces[i], states[i + 1]))
    && (forall i :: 0 <= i < |cmds| ==> Distinct(CatalogAfter(c, cmds, i), cmds[i]))
  }

  /** Allocator space a command may take on DPU d. */
  function NodeCost(cmd: Command, d: nat): nat
    requires Sendable(cmd)
  {
    match cmd
    case Create(_) => 0
    case Batch(call) => CallCost(call, d)
  }

  function NodesCost(cmds: seq<Command>, n: nat, d: nat): nat
    requires n <= |cmds| && forall i :: 0 <= i < |cmds| ==> Sendable(cmds[i])
  {
    if n == 0 then 0 else NodesCost(cmds, n - 1, d) + NodeCost(cmds[n - 1], d)
  }

  /** Every DPU still has the space that the commands from the n-th on may take. */
  ghost predicate Provided(units: seq<Unit>, cmds: seq<Command>, n: nat) {
    && n <= |cmds| && (forall i :: 0 <= i < |cmds| ==> Sendable(cmds[i]))
    && forall d :: 0 <= d < |units| ==> units[d].dpu.avail >= NodesCost(cmds, |cmds|, d) - NodesCost(cmds, n, d)
  }

  lemma {:induction false} NodesCostGrows(cmds: seq<Command>, m: nat, n: nat, d: nat)
    requires m <= n <= |cmds| && forall i :: 0 <= i < |cmds| ==> Sendable(cmds[i])
    ensures NodesCost(cmds, m, d) <= NodesCost(cmds, n, d)
  {
    hide NodeCost;
    if m < n { NodesCostGrows(cmds, m, n - 1, d); }
  }

  lemma ProvidedIsEnough(units: seq<Unit>, cmds: seq<Command>, n: nat)
    requires n < |cmds| && Provided(units, cmds, n) && cmds[n].Batch?
    ensures Enough(DpusOf(units), cmds[n].call)
  {
    hide CallCost;
    forall d | 0 <= d < |units| ensures units[d].dpu.avail >= CallCost(cmds[n].call, d) {
      NodesCostGrows(cmds, n + 1, |cmds|, d);
    }
  }

  /** One command keeps the set of DPUs serving the catalog, with the space the rest needs. */
  lemma CommandServes(units: seq<Unit>, cmds: seq<Command>, n: nat, trace: Trace, units': seq<Unit>, c: Catalog)
    requires n < |cmds| && Provided(units, cmds, n) && Sendable(cmds[n]) && Serves(units, c)
    requires Performed(units, cmds[n], trace, units') && Distinct(c, cmds[n])
    ensures Serves(units', Next(c, cmds[n])) && Provided(units', cmds, n + 1)
  {
    hide Serves, Performed, Provided, CallCost, Next, Distinct;
    ServedUnits(units, c);
    match cmds[n] {
      case Create(id) => CreateServes(units, id, trace, units', c);
      case Batch(call) =>
        ProvidedIsEnough(units, cmds, n);
        BatchServes(units, call, trace, units', c);
    }
    ServedUnits(units', Next(c, cmds[n]));
    ProvidedNext(units, units', cmds, n);
  }

  lemma ProvidedNext(units: seq<Unit>, units': seq<Unit>, cmds: seq<Command>, n: nat)
    requires n < |cmds| && Provided(units, cmds, n) && |units'| == |units|
    requires forall d :: 0 <= d < |units| ==> units'[d].dpu.avail >= units[d].dpu.avail - NodeCost(cmds[n], d)
    ensures Provided(units', cmds, n + 1)
  {
    hide NodeCost;
    forall d | 0 <= d < |units| ensures NodesCost(cmds, n + 1, d) == NodesCost(cmds, n, d) + NodeCost(cmds[n], d) {
    }
  }

  lemma ServedUnits(units: seq<Unit>, c: Catalog)
    requires Serves(units, c)
    ensures |units| == NR_DPUS && Spaced(units)
  {
  }

  /** From any state that serves a catalog, every history of creates and batches leads to states that serve the
      catalog its commands amount to, under every interleaving of the tasklets of every DPU in every launch. */
  lemma {:induction false} ServiceRefinesCatalog(states: seq<seq<Unit>>, cmds: seq<Command>, traces: seq<Trace>,
                                                 c: Catalog, n: nat)
    requires IsService(states, cmds, traces, c) && n <= |cmds| && Serves(states[0], c) && Provided(states[0], cmds, 0)
    ensures Serves(states[n], CatalogAfter(c, cmds, n)) && Provided(states[n], cmds, n)
  {
    hide Serves, Performed, Provided, Next, Distinct;
    if n > 0 {
      ServiceRefinesCatalog(states, cmds, traces, c, n - 1);
      CommandServes(states[n - 1], cmds, n - 1, traces[n - 1], states[n], CatalogAfter(c, cmds, n - 1));
    }
  }

  // --- Lookups ------------------------------------------------------------------------------

  /** What a lookup leaves in the caller's array: the map's values, or the array itself when the id was never
      created. */
  function Answered(c: Catalog, call: Call, vals: seq<nat>): seq<nat> {
    if call.id in c.ids then ExpectedAll(c.store, call.id, call.keys) else vals
  }

  /** Without results the pull delivers nothing and the merge writes nothing. */
  lemma NothingMerged(stale: seq<Coo>, outs: seq<DpuOutput>, vals: seq<nat>)
    requires |stale| == |outs| == NR_DPUS
    requires forall d :: 0 <= d < NR_DPUS ==> outs[d].resultSize == outs[d].coo.nnz == 0
    ensures Right(stale, outs, vals, vals)
  {
    hide Counted, AllResults;
    assert MaxOf(Sizes(outs)) == 0;
    NothingCounted(Pulled(stale, outs), NR_DPUS);
  }

  lemma LookupAnswers(units: seq<Unit>, call: Call, trace: Trace, units': seq<Unit>, c: Catalog, stale: seq<Coo>,
                      vals: seq<nat>)
    requires Serves(units, c) && Performed(units, Batch(call), trace, units') && call.Lookup?
    requires Paired(call) && ListsFit(call) && |stale| == NR_DPUS && |vals| == |call.keys|
    ensures trace.BatchTrace? && |trace.batches| == NR_DPUS
    ensures forall d :: 0 <= d < NR_DPUS ==> trace.batches[d] != []
    ensures Right(stale, OutputsOf(trace.batches), vals, Answered(c, call, vals))
  {
    hide UnitOk, SystemOk, Represents, Created, Ids, DpuRuns, CallOk, Right, Part, ItemsOf, Pulled, Counted, AllResults;
    var sites, runs, whos := SitesOf(units), trace.batches, trace.whos;
    KnownIds(units, c, call.id);
    LookupsAreFree(DpusOf(units), call);
    RunsNotEmpty(sites, DpusOf(units), call, runs, whos, DpusOf(units'));
    if call.id in c.ids {
      RightAnswers(sites, DpusOf(units), call, runs, whos, DpusOf(units'), c.store, stale, vals);
    } else {
      UnknownCall(sites, DpusOf(units), call, runs, whos, DpusOf(units'), c.store);
      NothingMerged(stale, OutputsOf(runs), vals);
    }
  }

  lemma RightAnswers(sites: seq<Site>, before: seq<Dpu>, call: Call, runs: seq<seq<State>>, whos: seq<seq<nat>>,
                     after: seq<Dpu>, m: Store, stale: seq<Coo>, vals: seq<nat>)
    requires SystemOk(sites, before) && Executed(sites, before, call, runs, whos, after) && call.Lookup?
    requires Created(sites, call.id) && Represents(sites, before, m) && |stale| == NR_DPUS && |vals| == |call.keys|
    requires Paired(call) && ListsFit(call)
    ensures forall d :: 0 <= d < NR_DPUS ==> runs[d] != []
    ensures Right(stale, OutputsOf(runs), vals, ExpectedAll(m, call.id, call.keys))
  {
    hide SystemOk, Represents, Created, Executed, Part, ItemsOf, Pulled, AllResults, Scatter;
    LookupReturnsMap(sites, before, call, runs, whos, after, m, stale, vals);
  }

  /** The whole promise: in every history of creates, inserts, deletes and lookups that keeps keys distinct, every
      lookup whose lists fit fills the caller's array with what the catalog holds at that moment. */
  lemma EveryAnswerIsRight(states: seq<seq<Unit>>, cmds: seq<Command>, traces: seq<Trace>, c: Catalog, n: nat,
                           stale: seq<Coo>, vals: seq<nat>)
    requires IsService(states, cmds, traces, c) && Serves(states[0], c) && Provided(states[0], cmds, 0)
    requires n < |cmds| && cmds[n].Batch? && cmds[n].call.Lookup? && Paired(cmds[n].call) && ListsFit(cmds[n].call)
    requires |stale| == NR_DPUS && |vals| == |cmds[n].call.keys|
    ensures traces[n].BatchTrace? && |traces[n].batches| == NR_DPUS
    ensures forall d :: 0 <= d < NR_DPUS ==> traces[n].batches[d] != []
    ensures Right(stale, OutputsOf(traces[n].batches), vals, Answered(CatalogAfter(c, cmds, n), cmds[n].call, vals))
  {
    hide Serves, Performed, Provided, Next, Distinct, Right, Answered, ListsFit;
    ServiceRefinesCatalog(states, cmds, traces, c, n);
    LookupAnswers(states[n], cmds[n].call, traces[n], states[n + 1], CatalogAfter(c, cmds, n), stale, vals);
  }

  // --- Beginning and going on ---------------------------------------------------------------

  /** A DPU that was just switched on: no index, no entry. */
  ghost predicate SwitchedOn(u: Unit) {
    && SpaceOk(u.spaceAddr, u.spaceSize) && u.spaceAddr + u.spaceSize <= u.start == u.dpu.cur
    && |u.pool| == BucketsPerIndex(u.spaceSize) && u.descs == [] && u.heads == [] && u.dpu.mem == map[]
  }

  /** A set of DPUs that was just switched on serves the empty catalog. */
  lemma PowerOn(units: seq<Unit>)
    requires |units| == NR_DPUS && forall d :: 0 <= d < NR_DPUS ==> SwitchedOn(units[d])
    ensures Serves(units, Catalog([], map[]))
  {
    hide SystemOk, Represents;
    forall d | 0 <= d < NR_DPUS ensures UnitOk(units[d]) && Ids(units[d].descs) == [] {
      assert UnitHas(units[d], View([], [], map[]));
    }
    NoIndexesIsEmptyMap(units);
  }

  /** In the space a DPU really sets aside the s-th index begins 0x80000 times s behind its beginning, with 8192
      buckets of 40 bytes one after the other. */
  lemma ServedSlots(units: seq<Unit>, c: Catalog, d: nat, s: nat)
    requires Serves(units, c) && d < NR_DPUS && s < |c.ids|
    requires units[d].spaceAddr == 0x2000000 && units[d].spaceSize == 0x1000000
    ensures |units[d].descs| == |c.ids| && |units[d].heads| == 8192 * |c.ids|
    ensures units[d].descs[s].id == c.ids[s] && units[d].descs[s].bucketsSize == 8192
    ensures units[d].descs[s].buckets == 0x2000000 + 0x80000 * s
    ensures forall l :: 0 <= l < 8192 ==>
              s * 8192 + l < |units[d].heads| && units[d].heads[s * 8192 + l] == 0x2000000 + 0x80000 * s + 40 * l
  {
    assert UnitOk(units[d]) && Ids(units[d].descs) == c.ids;
    SlotsOfUnit(units[d], s);
  }

  lemma SlotsOfUnit(u: Unit, s: nat)
    requires UnitOk(u) && s < |u.descs| && u.spaceAddr == 0x2000000 && u.spaceSize == 0x1000000
    ensures |u.heads| == 8192 * |u.descs|
    ensures u.descs[s].bucketsSize == 8192 && u.descs[s].buckets == 0x2000000 + 0x80000 * s
    ensures forall l :: 0 <= l < 8192 ==>
              s * 8192 + l < |u.heads| && u.heads[s * 8192 + l] == 0x2000000 + 0x80000 * s + 40 * l
  {
    hide HeapOk, Homed, Packed, BucketsPerIndex, SlotBase;
    var view :| UnitHas(u, view);
    ActualSpace();
    ActualSlots(s);
    forall l | 0 <= l < 8192
      ensures s * 8192 + l < |u.heads| && u.heads[s * 8192 + l] == 0x2000000 + 0x80000 * s + 40 * l
    {
      assert BucketAt(s, 8192, l) < |u.heads|;
    }
  }

  /** The catalog after creates only: the ids of the first 32. */
  lemma {:induction false} CreatesOnly(cmds: seq<Command>, n: nat)
    requires n <= |cmds| && forall i :: 0 <= i < |cmds| ==> cmds[i].Create?
    ensures var c := CatalogAfter(Catalog([], map[]), cmds, n);
            && |c.ids| == (if n <= 32 then n else 32) && c.store == map[]
            && forall i :: 0 <= i < |c.ids| ==> c.ids[i] == cmds[i].id
  {
    if n > 0 { CreatesOnly(cmds, n - 1); }
  }

  /** From power-on 32 creates succeed, whatever their ids, and every further one changes nothing on any DPU. */
  lemma ThirtyTwoCreates(states: seq<seq<Unit>>, cmds: seq<Command>, traces: seq<Trace>, n: nat)
    requires IsService(states, cmds, traces, Catalog([], map[])) && n < |cmds|
    requires forall i :: 0 <= i < |cmds| ==> cmds[i].Create?
    requires |states[0]| == NR_DPUS && forall d :: 0 <= d < NR_DPUS ==> SwitchedOn(states[0][d])
    ensures |states[n]| == |states[n + 1]| == NR_DPUS
    ensures n < 32 ==> AllKnow(states[n + 1], cmds[n].id, n + 1)
    ensures n >= 32 ==> states[n + 1] == states[n]
  {
    hide Serves, Performed, Provided, SwitchedOn, Distinct, CatalogAfter;
    var c := Catalog([], map[]);
    PowerOn(states[0]);
    NoNodesNeeded(states[0], cmds);
    ServiceRefinesCatalog(states, cmds, traces, c, n);
    ServiceRefinesCatalog(states, cmds, traces, c, n + 1);
    CreatesOnly(cmds, n);
    CreatesOnly(cmds, n + 1);
    ServedUnits(states[n], CatalogAfter(c, cmds, n));
    ServedUnits(states[n + 1], CatalogAfter(c, cmds, n + 1));
    if n < 32 {
      ServedIds(states[n + 1], CatalogAfter(c, cmds, n + 1), n);
    } else {
      FullStays(states[n], cmds[n].id, traces[n], states[n + 1], CatalogAfter(c, cmds, n));
    }
  }

  /** Every DPU has n indexes, one of them under the id. */
  ghost predicate AllKnow(units: seq<Unit>, id: int, n: nat) {
    |units| == NR_DPUS
    && forall d :: 0 <= d < NR_DPUS ==> |units[d].descs| == n && FindIndex(units[d].descs, id).Some?
  }

  lemma ServedIds(units: seq<Unit>, c: Catalog, i: nat)
    requires Serves(units, c) && i < |c.ids|
    ensures AllKnow(units, c.ids[i], |c.ids|)
  {
    hide UnitOk, SystemOk, Represents;
    forall d | 0 <= d < NR_DPUS
      ensures |units[d].descs| == |c.ids| && FindIndex(units[d].descs, c.ids[i]).Some?
    {
      FindsIds(units[d].descs, c.ids[i]);
    }
  }

  lemma FullStays(units: seq<Unit>, id: int, trace: Trace, units': seq<Unit>, c: Catalog)
    requires Serves(units, c) && |c.ids| == 32 && Spaced(units) && Performed(units, Create(id), trace, units')
    ensures units' == units
  {
    hide UnitOk, SystemOk, Represents, CreateRuns, Creates, Ids;
    forall d | 0 <= d < NR_DPUS ensures units'[d] == units[d] {
      SameLength(units[d].descs, c.ids);
      CreateRunCreates(units[d], id, trace.creates[d], trace.schedules[d], units'[d]);
    }
  }

  lemma NoNodesNeeded(units: seq<Unit>, cmds: seq<Command>)
    requires forall i :: 0 <= i < |cmds| ==> cmds[i].Create?
    ensures Provided(units, cmds, 0)
  {
    forall d: nat ensures NodesCost(cmds, |cmds|, d) == 0 { CreatesCostNothing(cmds, |cmds|, d); }
  }

  lemma {:induction false} CreatesCostNothing(cmds: seq<Command>, n: nat, d: nat)
    requires n <= |cmds| && forall i :: 0 <= i < |cmds| ==> cmds[i].Create?
    ensures NodesCost(cmds, n, d) == 0
  {
    if n > 0 { CreatesCostNothing(cmds, n - 1, d); }
  }

  /** Every command that the host can send and the DPUs have space for can be carried out. */
  lemma CommandFinishes(units: seq<Unit>, cmd: Command, c: Catalog) returns (trace: Trace, units': seq<Unit>)
    requires Serves(units, c) && (cmd.Batch? ==> CallOk(cmd.call) && Enough(DpusOf(units), cmd.call))
    ensures Spaced(units) && Performed(units, cmd, trace, units')
  {
    hide UnitOk, SystemOk, Represents, Created, CallOk;
    match cmd
    case Create(id) => trace, units' := CreatesFinish(units, id);
    case Batch(call) =>
      var runs, whos, after := CallFinishes(SitesOf(units), DpusOf(units), call);
      trace, units' := CarriedOut(units, call, runs, whos, after);
  }

  /** From power-on, creating an index and looking one key up too often is a history the code can go through, and it
      ends with a wrong array: the id holds nothing, so every value should be 0. */
  lemma TwoCommandsGoWrong(units: seq<Unit>, id: int, key: Key)
    returns (states: seq<seq<Unit>>, traces: seq<Trace>, stale: seq<Coo>, vals: seq<nat>)
    requires |units| == NR_DPUS && forall d :: 0 <= d < NR_DPUS ==> SwitchedOn(units[d])
    ensures |states| > 0 && states[0] == units
    ensures IsService(states, [Create(id), Batch(TooMany(id, key))], traces, Catalog([], map[]))
    ensures traces[1].BatchTrace? && |traces[1].batches| == NR_DPUS
    ensures forall d :: 0 <= d < NR_DPUS ==> traces[1].batches[d] != []
    ensures Buffers(stale) && |vals| == |TooMany(id, key).keys|
    ensures !Right(stale, OutputsOf(traces[1].batches), vals, ExpectedAll(map[], id, TooMany(id, key).keys))
  {
    hide Serves, Performed, SwitchedOn, Right, Ids, DpuRuns, CallOk, IsService, OutputsOf, ExpectedAll, Buffers;
    var c, call := Catalog([], map[]), TooMany(id, key);
    PowerOn(units);
    ServedUnits(units, c);
    var created, made := CommandFinishes(units, Create(id), c);
    CreateServes(units, id, created, made, c);
    var c' := Next(c, Create(id));
    ServesIsSystem(made, c', id);
    var runs, whos, after, s, v := LookupGoesWrong(SitesOf(made), DpusOf(made), id, key, map[]);
    var looked, done := CarriedOut(made, call, runs, whos, after);
    states, traces, stale, vals := [units, made, done], [created, looked], s, v;
    TwoCommands(units, id, created, made, call, looked, done, c);
  }

  lemma TwoCommands(units: seq<Unit>, id: int, created: Trace, made: seq<Unit>, call: Call, looked: Trace,
                    done: seq<Unit>, c: Catalog)
    requires Spaced(units) && Performed(units, Create(id), created, made) && call.Lookup?
    requires Spaced(made) && Performed(made, Batch(call), looked, done)
    ensures IsService([units, made, done], [Create(id), Batch(call)], [created, looked], c)
  {
    hide Performed, CreateRuns, Spaced, Next;
  }

  lemma CarriedOut(units: seq<Unit>, call: Call, runs: seq<seq<State>>, whos: seq<seq<nat>>, after: seq<Dpu>)
    returns (trace: Trace, units': seq<Unit>)
    requires Spaced(units) && Executed(SitesOf(units), DpusOf(units), call, runs, whos, after)
    ensures trace == BatchTrace(runs, whos) && Performed(units, Batch(call), trace, units')
  {
    hide DpuRuns, CallOk;
    trace := BatchTrace(runs, whos);
    units' := seq(NR_DPUS, d requires 0 <= d < NR_DPUS => units[d].(dpu := after[d]));
    assert DpusOf(units') == after;
  }

  lemma ServesIsSystem(units: seq<Unit>, c: Catalog, id: int)
    requires Serves(units, c) && id in c.ids
    ensures Spaced(units) && SystemOk(SitesOf(units), DpusOf(units)) && Created(SitesOf(units), id)
    ensures Represents(SitesOf(units), DpusOf(units), c.store)
  {
    hide SystemOk, Represents, Created;
    KnownIds(units, c, id);
  }

  lemma CreatesFinish(units: seq<Unit>, id: int) returns (trace: Trace, units': seq<Unit>)
    requires Spaced(units)
    ensures Performed(units, Create(id), trace, units')
  {
    hide CreateRuns;
    var runs, whos := [], [];
    units' := [];
    for d := 0 to NR_DPUS
      invariant |runs| == |whos| == |units'| == d
      invariant forall e :: 0 <= e < d ==> CreateRuns(units[e], id, runs[e], whos[e], units'[e])
    {
      var run, who, u' := UnitCreates(units[d], id);
      runs, whos, units' := runs + [run], whos + [who], units' + [u'];
    }
    trace := CreateTrace(runs, whos);
  }

  lemma UnitCreates(u: Unit, id: int) returns (run: seq<CreateState>, who: seq<nat>, u': Unit)
    requires EntriesPerSlot(u.spaceSize) >= 1
    ensures CreateRuns(u, id, run, who, u')
  {
    hide CreateStep, CreateDone;
    var s := CreateState(u.dpu.mem, u.descs, None, MPrepare, seq(NR_SLAVES, _ => BeforeBarrier1));
    run, who := CreateFinishes(ConfigOf(u, id), s);
    var last := run[|who|];
    u' := u.(descs := last.descs, heads := u.heads + NewHeads(u, id), dpu := u.dpu.(mem := last.mem));
  }
}
