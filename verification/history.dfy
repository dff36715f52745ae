/** The index as a key-to-value map: what any history of batches on a set of DPUs amounts to. */
module History {
  import opened Entries
  import opened BucketSpec
  import opened ChainHeap
  import opened PrimaryIndex
  import opened Interleavings
  import opened Tasklets
  import opened TaskletInvariant
  import opened Batches
  import opened Routing
  import opened PullMerge
  import opened DpuSet

  /** The abstract state: for every index id and key, the value last inserted and not deleted. */
  type Store = map<(int, Key), nat>

  function PutAll(m: Store, id: int, keys: seq<Key>, vals: seq<nat>): Store
    requires |vals| == |keys|
  {
    if keys == [] then m else
      var n := |keys| - 1;
      PutAll(m, id, keys[..n], vals[..n])[(id, keys[n]) := vals[n]]
  }

  function Meaning(m: Store, call: Call): Store
    requires Paired(call)
  {
    match call
    case Insert(id, keys, vals) => PutAll(m, id, keys, vals)
    case Delete(id, keys) => map k | k in m && !(k.0 == id && k.1 in keys) :: m[k]
    case Lookup(_, _) => m
  }

  /** An insert keeps keys distinct: it repeats no key and adds none that is there. */
  ghost predicate KeepsDistinct(m: Store, call: Call) {
    call.Insert? ==>
      && (forall i, j :: 0 <= i < j < |call.keys| ==> call.keys[i] != call.keys[j])
      && (forall i :: 0 <= i < |call.keys| ==> (call.id, call.keys[i]) !in m)
  }

  ghost function ValueSet(m: Store, id: int, key: Key): multiset<nat> {
    if (id, key) in m then multiset{m[(id, key)]} else multiset{}
  }

  /** The set of DPUs holds exactly the map. */
  ghost predicate Represents(sites: seq<Site>, dpus: seq<Dpu>, m: Store)
    requires SystemOk(sites, dpus)
  {
    forall id: int, key: Key :: Created(sites, id) ==> KeyValues(sites, dpus, id, key) == ValueSet(m, id, key)
  }

  lemma {:induction false} PutAllElsewhere(m: Store, id: int, keys: seq<Key>, vals: seq<nat>, other: int, key: Key)
    requires |vals| == |keys| && (other != id || key !in keys)
    ensures ValueSet(PutAll(m, id, keys, vals), other, key) == ValueSet(m, other, key)
  {
    if keys != [] {
      PutAllElsewhere(m, id, keys[..|keys| - 1], vals[..|keys| - 1], other, key);
    }
  }

  lemma ArgsOfInsert(keys: seq<Key>, vals: seq<nat>, key: Key)
    requires |vals| == |keys| && keys != []
    ensures var n := |keys| - 1;
            ArgsFor(InsertItems(keys, vals), key) ==
            ArgsFor(InsertItems(keys[..n], vals[..n]), key) + if keys[n] == key then multiset{vals[n]} else multiset{}
  {
    var n := |keys| - 1;
    assert InsertItems(keys, vals) == InsertItems(keys[..n], vals[..n]) + [Item(keys[n], vals[n])];
    ArgsConcat(InsertItems(keys[..n], vals[..n]), [Item(keys[n], vals[n])], key);
    ArgsSingle(Item(keys[n], vals[n]), key);
  }

  lemma {:induction false} NoArgs(keys: seq<Key>, vals: seq<nat>, key: Key)
    requires |vals| == |keys| && key !in keys
    ensures ArgsFor(InsertItems(keys, vals), key) == multiset{}
  {
    if keys != [] {
      ArgsOfInsert(keys, vals, key);
      NoArgs(keys[..|keys| - 1], vals[..|keys| - 1], key);
    }
  }

  /** Adding distinct new keys to the map is adding the batch's arguments to the keys' values. */
  lemma {:induction false} PutAllValues(m: Store, id: int, keys: seq<Key>, vals: seq<nat>, key: Key)
    requires |vals| == |keys|
    requires forall i, j :: 0 <= i < j < |keys| ==> keys[i] != keys[j]
    requires forall i :: 0 <= i < |keys| ==> (id, keys[i]) !in m
    ensures ValueSet(PutAll(m, id, keys, vals), id, key) == ValueSet(m, id, key) + ArgsFor(InsertItems(keys, vals), key)
  {
    hide ArgsFor, InsertItems;
    if keys == [] || key !in keys {
      NoArgs(keys, vals, key);
      PutAllElsewhere(m, id, keys, vals, id, key);
    } else {
      var n := |keys| - 1;
      ArgsOfInsert(keys, vals, key);
      if keys[n] == key {
        NoArgs(keys[..n], vals[..n], key);
      } else {
        PutAllValues(m, id, keys[..n], vals[..n], key);
      }
    }
  }

  /** One call does to the set of DPUs what it means for the map. */
  lemma EffectOnMap(m: Store, call: Call, id: int, key: Key, before: multiset<nat>, after: multiset<nat>)
    requires Paired(call) && KeepsDistinct(m, call) && before == ValueSet(m, id, key)
    requires Effect(call, ItemsOf(call), id, key, before, after)
    ensures after == ValueSet(Meaning(m, call), id, key)
  {
    match call
    case Insert(cid, keys, vals) =>
      if id == cid { PutAllValues(m, cid, keys, vals, key); } else { PutAllElsewhere(m, cid, keys, vals, id, key); }
    case Delete(cid, keys) =>
      ArgsNamed(ItemsOf(call), key);
      hide ArgsFor;
      if id == cid && key in keys {
        assert ItemsOf(call)[Find(keys, key)].key == key;
        assert |after| == 0;
      } else {
        SmallSubset(after, before);
      }
    case Lookup(_, _) =>
  }

  function Find(keys: seq<Key>, key: Key): (i: nat)
    requires key in keys
    ensures i < |keys| && keys[i] == key
  {
    if keys[0] == key then 0 else Find(keys[1..], key) + 1
  }

  // --- Histories ----------------------------------------------------------------------------

  /** The map after the first n calls. */
  function MeaningOf(m: Store, calls: seq<Call>, n: nat): Store
    requires n <= |calls| && forall i :: 0 <= i < |calls| ==> Paired(calls[i])
  {
    if n == 0 then m else Meaning(MeaningOf(m, calls, n - 1), calls[n - 1])
  }

  /** Calls executed one after the other on a set of DPUs, each under schedules of its own; inserts keep
      keys distinct. */
  ghost predicate IsHistory(sites: seq<Site>, states: seq<seq<Dpu>>, calls: seq<Call>,
                            runs: seq<seq<seq<State>>>, whos: seq<seq<seq<nat>>>, m: Store) {
    && |states| == |calls| + 1 && |runs| == |whos| == |calls|
    && (forall i :: 0 <= i < |calls| ==> CallOk(calls[i]) && Created(sites, calls[i].id))
    && (forall i :: 0 <= i < |calls| ==> Executed(sites, states[i], calls[i], runs[i], whos[i], states[i + 1]))
    && (forall i :: 0 <= i < |calls| ==> KeepsDistinct(MeaningOf(m, calls, i), calls[i]))
  }

  /** Allocator space the first n calls may take on DPU d together. */
  function TotalCost(calls: seq<Call>, n: nat, d: nat): nat
    requires n <= |calls| && forall i :: 0 <= i < |calls| ==> Paired(calls[i])
  {
    if n == 0 then 0 else TotalCost(calls, n - 1, d) + CallCost(calls[n - 1], d)
  }

  lemma {:induction false} TotalCostGrows(calls: seq<Call>, m: nat, n: nat, d: nat)
    requires m <= n <= |calls| && forall i :: 0 <= i < |calls| ==> Paired(calls[i])
    ensures TotalCost(calls, m, d) <= TotalCost(calls, n, d)
  {
    hide CallCost;
    if m < n { TotalCostGrows(calls, m, n - 1, d); }
  }

  /** At the beginning every DPU has a node for every element that the history inserts on it. */
  ghost predicate RoomForAll(dpus: seq<Dpu>, calls: seq<Call>) {
    && (forall i :: 0 <= i < |calls| ==> Paired(calls[i]))
    && forall d :: 0 <= d < |dpus| ==> dpus[d].avail >= TotalCost(calls, |calls|, d)
  }

  /** Space left after n calls. */
  ghost predicate RoomLeft(dpus: seq<Dpu>, calls: seq<Call>, n: nat) {
    && n <= |calls| && (forall i :: 0 <= i < |calls| ==> Paired(calls[i]))
    && forall d :: 0 <= d < |dpus| ==> dpus[d].avail >= TotalCost(calls, |calls|, d) - TotalCost(calls, n, d)
  }

  lemma RoomIsEnough(dpus: seq<Dpu>, calls: seq<Call>, n: nat)
    requires n < |calls| && RoomLeft(dpus, calls, n)
    ensures Enough(dpus, calls[n])
  {
    hide CallCost;
    forall d | 0 <= d < |dpus| ensures dpus[d].avail >= CallCost(calls[n], d) {
      TotalCostGrows(calls, n + 1, |calls|, d);
    }
  }

  /** After any history the set of DPUs holds exactly the map the calls amount to, under every interleaving of
      the tasklets of every DPU in every call. */
  lemma {:induction false} HistoryRefinesMap(sites: seq<Site>, states: seq<seq<Dpu>>, calls: seq<Call>,
                                             runs: seq<seq<seq<State>>>, whos: seq<seq<seq<nat>>>, m: Store, n: nat)
    requires IsHistory(sites, states, calls, runs, whos, m) && n <= |calls| && RoomForAll(states[0], calls)
    requires SystemOk(sites, states[0]) && Represents(sites, states[0], m)
    ensures SystemOk(sites, states[n]) && Represents(sites, states[n], MeaningOf(m, calls, n))
            && RoomLeft(states[n], calls, n)
  {
    hide IsHistory, SystemOk, Represents, Created, Executed, CallOk, RoomForAll, KeepsDistinct, Meaning, RoomLeft;
    HistorySizes(sites, states, calls, runs, whos, m);
    if n == 0 {
      assert RoomLeft(states[0], calls, 0) by { RoomAtStart(states[0], calls); }
    } else {
      HistoryRefinesMap(sites, states, calls, runs, whos, m, n - 1);
      CallAt(sites, states, calls, runs, whos, m, n - 1);
      HistoryStep(sites, states[n - 1], calls, runs[n - 1], whos[n - 1], states[n], MeaningOf(m, calls, n - 1), n - 1);
    }
  }

  lemma HistorySizes(sites: seq<Site>, states: seq<seq<Dpu>>, calls: seq<Call>, runs: seq<seq<seq<State>>>,
                     whos: seq<seq<seq<nat>>>, m: Store)
    requires IsHistory(sites, states, calls, runs, whos, m)
    ensures |states| == |calls| + 1 && |runs| == |whos| == |calls|
    ensures forall i :: 0 <= i < |calls| ==> Paired(calls[i])
  {
    hide Created, Executed, PackagesFit, KeepsDistinct, MeaningOf, ItemsOf;
  }

  lemma CallAt(sites: seq<Site>, states: seq<seq<Dpu>>, calls: seq<Call>, runs: seq<seq<seq<State>>>,
               whos: seq<seq<seq<nat>>>, m: Store, n: nat)
    requires IsHistory(sites, states, calls, runs, whos, m) && n < |calls|
    requires |states| == |calls| + 1 && |runs| == |whos| == |calls| && forall i :: 0 <= i < |calls| ==> Paired(calls[i])
    ensures CallOk(calls[n]) && Created(sites, calls[n].id) && KeepsDistinct(MeaningOf(m, calls, n), calls[n])
    ensures Executed(sites, states[n], calls[n], runs[n], whos[n], states[n + 1])
  {
    hide Created, Executed, CallOk, KeepsDistinct, MeaningOf;
  }

  lemma RoomAtStart(dpus: seq<Dpu>, calls: seq<Call>)
    requires RoomForAll(dpus, calls)
    ensures RoomLeft(dpus, calls, 0)
  {
  }

  /** One call keeps the set of DPUs holding exactly the map, and takes no more space than it costs. */
  lemma CallRefines(sites: seq<Site>, before: seq<Dpu>, call: Call, runs: seq<seq<State>>, whos: seq<seq<nat>>,
                    after: seq<Dpu>, m: Store)
    requires SystemOk(sites, before) && Represents(sites, before, m) && Executed(sites, before, call, runs, whos, after)
    requires Created(sites, call.id) && KeepsDistinct(m, call) && Enough(before, call)
    ensures SystemOk(sites, after) && Represents(sites, after, Meaning(m, call))
    ensures forall d :: 0 <= d < NR_DPUS ==> after[d].avail >= before[d].avail - CallCost(call, d)
  {
    hide SystemOk, Created, DpuRuns, Enough, KeepsDistinct, Effect, Meaning, ValueSet, ItemsOf, CallCost;
    CallEffect(sites, before, call, runs, whos, after);
    forall id: int, key: Key | Created(sites, id)
      ensures KeyValues(sites, after, id, key) == ValueSet(Meaning(m, call), id, key)
    {
      EffectOnMap(m, call, id, key, KeyValues(sites, before, id, key), KeyValues(sites, after, id, key));
    }
  }

  lemma HistoryStep(sites: seq<Site>, before: seq<Dpu>, calls: seq<Call>, runs: seq<seq<State>>, whos: seq<seq<nat>>,
                    after: seq<Dpu>, m: Store, n: nat)
    requires n < |calls| && CallOk(calls[n]) && Created(sites, calls[n].id) && KeepsDistinct(m, calls[n])
    requires SystemOk(sites, before) && Represents(sites, before, m) && RoomLeft(before, calls, n)
    requires Executed(sites, before, calls[n], runs, whos, after)
    ensures SystemOk(sites, after) && Represents(sites, after, Meaning(m, calls[n])) && RoomLeft(after, calls, n + 1)
  {
    hide SystemOk, Represents, Created, DpuRuns, Enough, KeepsDistinct, Meaning, ItemsOf, CallCost;
    RoomIsEnough(before, calls, n);
    CallRefines(sites, before, calls[n], runs, whos, after, m);
  }

  // --- Lookups ------------------------------------------------------------------------------

  /** The value a lookup has to report. */
  function Expected(m: Store, id: int, key: Key): nat {
    if (id, key) in m then m[(id, key)] else 0
  }

  /** What the DPUs hold for the host at the end of a call. */
  function OutputsOf(runs: seq<seq<State>>): (r: seq<DpuOutput>)
    requires forall d :: 0 <= d < |runs| ==> runs[d] != []
    ensures |r| == |runs|
  {
    seq(|runs|, d requires 0 <= d < |runs| =>
      var s := runs[d][|runs[d]| - 1];
      DpuOutput(s.resultSize, Coo(s.nnz, s.data)))
  }

  /** A result list answers the batch positions of DPU d, each with its expected value, and no others. */
  ghost predicate Answering(rs: seq<Res>, keys: seq<Key>, expected: seq<nat>, d: nat) {
    && |expected| == |keys|
    && (forall r :: r in rs ==> r.row < |keys| && Route(keys[r.row]) == d && r.val == expected[r.row])
    && (forall i :: 0 <= i < |keys| && Route(keys[i]) == d ==> Res(i, expected[i]) in rs)
  }

  lemma DpuAnswers(site: Site, before: Dpu, call: Call, d: nat, run: seq<State>, who: seq<nat>, after: Dpu,
                   expected: seq<nat>)
    requires SiteOk(site) && Paired(call) && DpuOk(site, before) && DpuRuns(site, before, call, d, run, who, after)
    requires call.Lookup? && FindIndex(site.descs, call.id).Some? && |expected| == |call.keys|
    requires forall i :: 0 <= i < |call.keys| && Route(call.keys[i]) == d ==>
               var hits := DpuValues(site, before, call.id, call.keys[i]);
               hits == multiset{expected[i]} || (hits == multiset{} && expected[i] == 0)
    ensures run[|who|].resultSize == run[|who|].nnz == |Part(ItemsOf(call), d)| <= |run[|who|].data|
    ensures Answering(run[|who|].data[..run[|who|].nnz], call.keys, expected, d)
  {
    hide Launch, AllDone, Step, IndexIn, DpuValues, Values, BucketOf, Route, Part, Answers, Answer, Answering;
    var view :| IndexIn(site, before, view);
    Launched(site, before, call, d, run, who, after, view);
    var cfg, items := ConfigFor(site, call, d), ItemsOf(call);
    var _ := LookupBatch(cfg, run, who, view);
    ExpectedAnswers(site, before, call, d, view, expected);
    SameAnswers(run[|who|].data[..|cfg.items|], Answers(cfg, view.recs, cfg.items), call.keys, expected, d);
  }

  lemma ExpectedAnswers(site: Site, before: Dpu, call: Call, d: nat, view: View, expected: seq<nat>)
    requires SiteOk(site) && Paired(call) && IndexIn(site, before, view)
    requires call.Lookup? && FindIndex(site.descs, call.id).Some? && |expected| == |call.keys|
    requires forall i :: 0 <= i < |call.keys| && Route(call.keys[i]) == d ==>
               var hits := DpuValues(site, before, call.id, call.keys[i]);
               hits == multiset{expected[i]} || (hits == multiset{} && expected[i] == 0)
    ensures Answering(Answers(ConfigFor(site, call, d), view.recs, Part(ItemsOf(call), d)), call.keys, expected, d)
  {
    hide IndexIn, DpuValues, Route, Part, Answers, Answer, Answering;
    forall i | 0 <= i < |call.keys| && Route(call.keys[i]) == d
      ensures Answer(ConfigFor(site, call, d), view.recs, ItemsOf(call)[i]) == Res(i, expected[i])
    {
      AnswerIsExpected(site, before, call, d, view, i, expected[i]);
    }
    AnswersCover(ConfigFor(site, call, d), view.recs, ItemsOf(call), d, call.keys, expected);
  }

  lemma SameAnswers(a: seq<Res>, b: seq<Res>, keys: seq<Key>, expected: seq<nat>, d: nat)
    requires multiset(a) == multiset(b) && Answering(b, keys, expected, d)
    ensures Answering(a, keys, expected, d)
  {
    hide Route;
    SameMembers(a, b);
  }

  lemma AnswersCover(cfg: Config, recs: seq<seq<Rec>>, items: seq<Item>, d: nat, keys: seq<Key>, expected: seq<nat>)
    requires cfg.size > 0 && cfg.items == Part(items, d) && |items| == |keys| == |expected|
    requires forall i :: 0 <= i < |keys| ==> items[i].key == keys[i]
    requires forall i :: 0 <= i < |keys| && Route(keys[i]) == d ==> Answer(cfg, recs, items[i]) == Res(i, expected[i])
    ensures Answering(Answers(cfg, recs, cfg.items), keys, expected, d)
  {
    hide Route, Part, Answer;
    PackageIsStableSelection(items, d);
    var ps := Positions(items, d);
    hide Positions;
    forall j | 0 <= j < |cfg.items|
      ensures ps[j] < |items| && Route(keys[ps[j]]) == d
              && Answers(cfg, recs, cfg.items)[j] == Res(ps[j], expected[ps[j]])
    {
      assert ps[j] in ps;
    }
    forall i | 0 <= i < |keys| && Route(keys[i]) == d
      ensures Res(i, expected[i]) in Answers(cfg, recs, cfg.items)
    {
      assert i in ps;
      var j :| 0 <= j < |ps| && ps[j] == i;
      assert Answers(cfg, recs, cfg.items)[j] == Res(i, expected[i]);
    }
  }

  lemma AnswerIsExpected(site: Site, before: Dpu, call: Call, d: nat, view: View, i: nat, v: nat)
    requires SiteOk(site) && Paired(call) && IndexIn(site, before, view) && call.Lookup?
             && FindIndex(site.descs, call.id).Some?
    requires i < |call.keys|
    requires var hits := DpuValues(site, before, call.id, call.keys[i]);
             hits == multiset{v} || (hits == multiset{} && v == 0)
    ensures Answer(ConfigFor(site, call, d), view.recs, ItemsOf(call)[i]) == Res(i, v)
  {
    hide HeapOk, Homed, DpuValues, Values, BucketOf, Part, Hits;
    var cfg, key := ConfigFor(site, call, d), call.keys[i];
    var b := BucketOfIndex(site, call, d, call.id, key);
    ValuesAreHits(cfg, before.mem, before.cur, view);
    LookupMeaning(view.recs[b], key);
  }

  function ExpectedAll(m: Store, id: int, keys: seq<Key>): (r: seq<nat>)
    ensures |r| == |keys| && forall i :: 0 <= i < |r| ==> r[i] == Expected(m, id, keys[i])
  {
    seq(|keys|, i requires 0 <= i < |keys| => Expected(m, id, keys[i]))
  }

  lemma PulledAnswers(sites: seq<Site>, before: seq<Dpu>, call: Call, runs: seq<seq<State>>, whos: seq<seq<nat>>,
                      after: seq<Dpu>, m: Store, stale: seq<Coo>)
    requires SystemOk(sites, before) && Executed(sites, before, call, runs, whos, after)
    requires call.Lookup? && Created(sites, call.id) && Represents(sites, before, m) && |stale| == NR_DPUS
    requires forall d :: 0 <= d < NR_DPUS ==> |Part(ItemsOf(call), d)| <= COO_RESULTS_CAPACITY
    ensures forall d :: 0 <= d < NR_DPUS ==> runs[d] != []
    ensures forall d :: 0 <= d < NR_DPUS ==>
              Pulled(stale, OutputsOf(runs))[d].nnz <= |Pulled(stale, OutputsOf(runs))[d].data|
              && Answering(Counted(Pulled(stale, OutputsOf(runs))[d]), call.keys, ExpectedAll(m, call.id, call.keys), d)
  {
    hide SiteOk, DpuOk, DpuValues, Route, Part, ItemsOf, Answering, MaxOf, Launch, AllDone, Step, ConfigFor;
    var expected := ExpectedAll(m, call.id, call.keys);
    forall d | 0 <= d < NR_DPUS
      ensures runs[d] != [] && whos[d] == whos[d] && |runs[d]| == |whos[d]| + 1
      ensures runs[d][|whos[d]|].resultSize == runs[d][|whos[d]|].nnz == |Part(ItemsOf(call), d)| <=
              |runs[d][|whos[d]|].data|
      ensures Answering(runs[d][|whos[d]|].data[..runs[d][|whos[d]|].nnz], call.keys, expected, d)
    {
      forall i | 0 <= i < |call.keys| && Route(call.keys[i]) == d
        ensures DpuValues(sites[d], before[d], call.id, call.keys[i]) == ValueSet(m, call.id, call.keys[i])
      {
        assert KeyValues(sites, before, call.id, call.keys[i]) == ValueSet(m, call.id, call.keys[i]);
      }
      DpuAnswers(sites[d], before[d], call, d, runs[d], whos[d], after[d], expected);
    }
    var outs := OutputsOf(runs);
    hide Counted, Pulled;
    forall d | 0 <= d < NR_DPUS
      ensures Pulled(stale, outs)[d].nnz <= |Pulled(stale, outs)[d].data|
      ensures Answering(Counted(Pulled(stale, outs)[d]), call.keys, expected, d)
    {
      PulledIntact(stale, outs, d);
    }
  }

  /** Pulling and merging after a lookup call sets every element of the caller's array to the value the map
      holds for the key at that position, or 0, whatever the host's buffers and the array held before. */
  lemma LookupReturnsMap(sites: seq<Site>, before: seq<Dpu>, call: Call, runs: seq<seq<State>>, whos: seq<seq<nat>>,
                         after: seq<Dpu>, m: Store, stale: seq<Coo>, vals: seq<nat>)
    requires SystemOk(sites, before) && Executed(sites, before, call, runs, whos, after)
    requires call.Lookup? && Created(sites, call.id) && Represents(sites, before, m) && |stale| == NR_DPUS
    requires forall d :: 0 <= d < NR_DPUS ==> |Part(ItemsOf(call), d)| <= COO_RESULTS_CAPACITY
    requires |vals| == |call.keys|
    ensures forall d :: 0 <= d < NR_DPUS ==> runs[d] != []
    ensures RowsBelow(AllResults(Pulled(stale, OutputsOf(runs)), NR_DPUS), |vals|)
    ensures Scatter(vals, AllResults(Pulled(stale, OutputsOf(runs)), NR_DPUS)) == ExpectedAll(m, call.id, call.keys)
  {
    hide SystemOk, DpuRuns, Represents, Created, Part, ItemsOf, Pulled, Counted;
    PulledAnswers(sites, before, call, runs, whos, after, m, stale);
    MergedAnswers(Pulled(stale, OutputsOf(runs)), call.keys, ExpectedAll(m, call.id, call.keys), vals);
  }

  lemma MergedAnswers(coos: seq<Coo>, keys: seq<Key>, expected: seq<nat>, vals: seq<nat>)
    requires |coos| == NR_DPUS && |vals| == |keys| == |expected|
    requires forall d :: 0 <= d < NR_DPUS ==> Answering(Counted(coos[d]), keys, expected, d)
    ensures RowsBelow(AllResults(coos, NR_DPUS), |vals|)
    ensures Scatter(vals, AllResults(coos, NR_DPUS)) == expected
  {
    hide Route, Counted, AllResults;
    var rs := AllResults(coos, NR_DPUS);
    forall r | r in rs ensures r.row < |keys| && r.val == expected[r.row] {
      AllResultsMembers(coos, NR_DPUS, r);
    }
    forall i | 0 <= i < |keys| ensures Scatter(vals, rs)[i] == expected[i] {
      AllResultsMembers(coos, NR_DPUS, Res(i, expected[i]));
      assert Answering(Counted(coos[Route(keys[i])]), keys, expected, Route(keys[i]));
      assert Res(i, expected[i]) in rs;
      ScatterAt(vals, rs, i, expected[i]);
    }
  }

  /** The array after pulling into buffers that held `stale` and merging into `vals` is the expected one. */
  ghost predicate Right(stale: seq<Coo>, outs: seq<DpuOutput>, vals: seq<nat>, expected: seq<nat>)
    requires |stale| == |outs| == NR_DPUS
  {
    && RowsBelow(AllResults(Pulled(stale, outs), NR_DPUS), |vals|)
    && Scatter(vals, AllResults(Pulled(stale, outs), NR_DPUS)) == expected
  }

  /** The host's result buffers: room for a full list, some of it counted. */
  ghost predicate Buffers(coos: seq<Coo>) {
    |coos| == NR_DPUS && forall d :: 0 <= d < NR_DPUS ==> coos[d].nnz <= |coos[d].data| == COO_RESULTS_CAPACITY
  }

  /** Every list of a lookup call fits a pull buffer. */
  ghost predicate ListsFit(call: Call)
    requires Paired(call)
  {
    forall d :: 0 <= d < NR_DPUS ==> |Part(ItemsOf(call), d)| <= COO_RESULTS_CAPACITY
  }

  /** A lookup call gives the map's values, whatever the host's result buffers and the caller's array held before,
      exactly when every DPU's list fits a pull buffer. */
  lemma LookupRightIffListsFit(sites: seq<Site>, before: seq<Dpu>, call: Call, runs: seq<seq<State>>,
                               whos: seq<seq<nat>>, after: seq<Dpu>, m: Store)
    requires SystemOk(sites, before) && Executed(sites, before, call, runs, whos, after)
    requires call.Lookup? && Created(sites, call.id) && Represents(sites, before, m)
    ensures forall d :: 0 <= d < NR_DPUS ==> runs[d] != []
    ensures ListsFit(call) <==>
            forall stale, vals :: Buffers(stale) && |vals| == |call.keys| ==>
              Right(stale, OutputsOf(runs), vals, ExpectedAll(m, call.id, call.keys))
  {
    hide SystemOk, DpuRuns, Represents, Created, Part, ItemsOf, Pulled, Counted, AllResults, Scatter, CallOk;
    RunsNotEmpty(sites, before, call, runs, whos, after);
    var expected := ExpectedAll(m, call.id, call.keys);
    if ListsFit(call) {
      forall stale, vals | Buffers(stale) && |vals| == |call.keys|
        ensures Right(stale, OutputsOf(runs), vals, expected)
      {
        LookupReturnsMap(sites, before, call, runs, whos, after, m, stale, vals);
      }
    } else {
      var d :| 0 <= d < NR_DPUS && |Part(ItemsOf(call), d)| > COO_RESULTS_CAPACITY;
      ListLength(sites, before, call, runs, whos, after, m, d);
      var stale, vals := StaleIsWrong(OutputsOf(runs), d, expected);
    }
  }

  lemma RunsNotEmpty(sites: seq<Site>, before: seq<Dpu>, call: Call, runs: seq<seq<State>>, whos: seq<seq<nat>>,
                     after: seq<Dpu>)
    requires Executed(sites, before, call, runs, whos, after)
    ensures forall d :: 0 <= d < NR_DPUS ==> |runs[d]| == |whos[d]| + 1
  {
    hide PackagesFit, Step, Launch, AllDone, ConfigFor;
    forall d | 0 <= d < NR_DPUS ensures |runs[d]| == |whos[d]| + 1 {
      assert DpuRuns(sites[d], before[d], call, d, runs[d], whos[d], after[d]);
    }
  }

  /** The DPU of a part reports as many results as the part has elements. */
  lemma ListLength(sites: seq<Site>, before: seq<Dpu>, call: Call, runs: seq<seq<State>>, whos: seq<seq<nat>>,
                   after: seq<Dpu>, m: Store, d: nat)
    requires SystemOk(sites, before) && Executed(sites, before, call, runs, whos, after) && d < NR_DPUS
    requires call.Lookup? && Created(sites, call.id) && Represents(sites, before, m)
    requires forall d :: 0 <= d < NR_DPUS ==> runs[d] != []
    ensures OutputsOf(runs)[d].resultSize == |Part(ItemsOf(call), d)| <= |call.keys|
  {
    hide SiteOk, DpuOk, DpuValues, Route, Part, ItemsOf, Answering, Step, Launch, AllDone, ConfigFor, CallOk;
    var expected := ExpectedAll(m, call.id, call.keys);
    RunsNotEmpty(sites, before, call, runs, whos, after);
    forall i | 0 <= i < |call.keys| && Route(call.keys[i]) == d
      ensures DpuValues(sites[d], before[d], call.id, call.keys[i]) == ValueSet(m, call.id, call.keys[i])
    {
      assert KeyValues(sites, before, call.id, call.keys[i]) == ValueSet(m, call.id, call.keys[i]);
    }
    DpuAnswers(sites[d], before[d], call, d, runs[d], whos[d], after[d], expected);
  }

  /** With a list that does not fit, buffers without results leave the caller's array as it was. */
  lemma StaleIsWrong(outs: seq<DpuOutput>, d: nat, expected: seq<nat>) returns (stale: seq<Coo>, vals: seq<nat>)
    requires |outs| == NR_DPUS && d < NR_DPUS && outs[d].resultSize > COO_RESULTS_CAPACITY && |expected| > 0
    ensures Buffers(stale) && |vals| == |expected| && !Right(stale, outs, vals, expected)
  {
    stale := seq(NR_DPUS, i => Coo(0, seq(COO_RESULTS_CAPACITY, j => Res(0, 0))));
    vals := expected[0 := if expected[0] == 0 then 1 else 0];
    assert Sizes(outs)[d] <= MaxOf(Sizes(outs));
    NothingCounted(stale, NR_DPUS);
    assert Pulled(stale, outs) == stale && vals[0] != expected[0];
  }

  lemma {:induction false} NothingCounted(coos: seq<Coo>, n: nat)
    requires n <= |coos| && forall d :: 0 <= d < |coos| ==> coos[d].nnz == 0
    ensures AllResults(coos, n) == []
  {
    if n > 0 {
      NothingCounted(coos, n - 1);
      CountedNone(coos[n - 1]);
    }
  }

  lemma CountedNone(coo: Coo)
    requires coo.nnz == 0
    ensures Counted(coo) == []
  {
  }

  /** One key looked up once more often than a pull buffer holds answers. */
  function TooMany(id: int, key: Key): Call {
    Lookup(id, seq(COO_RESULTS_CAPACITY + 1, i => key))
  }

  lemma {:induction false} PartOfOneKey(items: seq<Item>, key: Key)
    requires forall i :: 0 <= i < |items| ==> items[i].key == key
    ensures Part(items, Route(key)) == items
  {
    hide Route;
    if items != [] {
      PartOfOneKey(items[..|items| - 1], key);
      assert items == items[..|items| - 1] + [items[|items| - 1]];
    }
  }

  /** The host can build that call, and its answers do not fit. */
  lemma TooManyAnswers(id: int, key: Key)
    ensures CallOk(TooMany(id, key)) && !ListsFit(TooMany(id, key))
  {
    hide Route, Part;
    PartOfOneKey(ItemsOf(TooMany(id, key)), key);
    assert |Part(ItemsOf(TooMany(id, key)), Route(key))| > COO_RESULTS_CAPACITY;
  }

  /** On any set of DPUs with the index that call runs to its end, and with empty result buffers the caller's array
      comes back wrong. */
  lemma LookupGoesWrong(sites: seq<Site>, before: seq<Dpu>, id: int, key: Key, m: Store)
    returns (runs: seq<seq<State>>, whos: seq<seq<nat>>, after: seq<Dpu>, stale: seq<Coo>, vals: seq<nat>)
    requires SystemOk(sites, before) && Created(sites, id) && Represents(sites, before, m)
    ensures var call := TooMany(id, key);
            && Executed(sites, before, call, runs, whos, after)
            && (forall d :: 0 <= d < NR_DPUS ==> runs[d] != [])
            && Buffers(stale) && |vals| == |call.keys|
            && !Right(stale, OutputsOf(runs), vals, ExpectedAll(m, id, call.keys))
  {
    hide SystemOk, DpuRuns, Represents, Created, Part, ItemsOf, Pulled, Counted, AllResults, Scatter, CallOk, Right;
    var call := TooMany(id, key);
    TooManyAnswers(id, key);
    LookupsAreFree(before, call);
    runs, whos, after := CallFinishes(sites, before, call);
    RunsNotEmpty(sites, before, call, runs, whos, after);
    var d :| 0 <= d < NR_DPUS && |Part(ItemsOf(call), d)| > COO_RESULTS_CAPACITY;
    ListLength(sites, before, call, runs, whos, after, m, d);
    stale, vals := StaleIsWrong(OutputsOf(runs), d, ExpectedAll(m, id, call.keys));
  }

  lemma LookupsAreFree(dpus: seq<Dpu>, call: Call)
    requires call.Lookup?
    ensures Enough(dpus, call)
  {
    hide Part, ItemsOf;
  }

  /** The whole promise: in any history of inserts, deletes and lookups that keeps keys distinct, every lookup
      call fills the caller's array with what the map holds at that moment. */
  lemma EveryLookupIsRight(sites: seq<Site>, states: seq<seq<Dpu>>, calls: seq<Call>, runs: seq<seq<seq<State>>>,
                           whos: seq<seq<seq<nat>>>, m: Store, n: nat, stale: seq<Coo>, vals: seq<nat>)
    requires IsHistory(sites, states, calls, runs, whos, m) && n < |calls| && calls[n].Lookup?
             && RoomForAll(states[0], calls)
    requires SystemOk(sites, states[0]) && Represents(sites, states[0], m)
    requires forall d :: 0 <= d < NR_DPUS ==> |Part(ItemsOf(calls[n]), d)| <= COO_RESULTS_CAPACITY
    requires |stale| == NR_DPUS && |vals| == |calls[n].keys|
    ensures |runs[n]| == NR_DPUS && forall d :: 0 <= d < NR_DPUS ==> runs[n][d] != []
    ensures RowsBelow(AllResults(Pulled(stale, OutputsOf(runs[n])), NR_DPUS), |vals|)
    ensures Scatter(vals, AllResults(Pulled(stale, OutputsOf(runs[n])), NR_DPUS)) ==
            ExpectedAll(MeaningOf(m, calls, n), calls[n].id, calls[n].keys)
  {
    hide SystemOk, Represents, Created, Enough, KeepsDistinct, Part, ItemsOf, Pulled, OutputsOf, Meaning, DpuRuns;
    HistoryRefinesMap(sites, states, calls, runs, whos, m, n);
    LookupReturnsMap(sites, states[n], calls[n], runs[n], whos[n], states[n + 1], MeaningOf(m, calls, n), stale, vals);
  }
}
