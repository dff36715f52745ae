/** The launch that creates an index, as a step system: the master registers the index, the slaves clear its
    buckets between the two barriers, each its own block, one entry after the other. */
module CreateLaunch {
  import opened Util
  import opened Entries
  import opened ChainHeap
  import opened IndexLayout
  import opened PrimaryIndex
  import opened Interleavings
  import opened Tasklets

  // --- Clearing the buckets -----------------------------------------------------------------

  /** The memory after clearing entries of the array at `base` one by one. */
  function ClearAll(mem: Memory, base: Addr, order: seq<nat>): Memory {
    if order == [] then mem else
      var n := |order| - 1;
      ClearAll(mem, base, order[..n])[EntryAt(base, order[n]) := EMPTY_ENTRY]
  }

  lemma {:induction false} ClearAllIs(mem: Memory, base: Addr, order: seq<nat>, a: Addr)
    ensures a in ClearAll(mem, base, order) <==> a in mem || exists i :: i in order && a == EntryAt(base, i)
    ensures a in ClearAll(mem, base, order) ==>
              ClearAll(mem, base, order)[a] == if exists i :: i in order && a == EntryAt(base, i) then EMPTY_ENTRY
                else mem[a]
  {
    if order != [] {
      var n := |order| - 1;
      ClearAllIs(mem, base, order[..n], a);
      assert order[n] in order && forall i :: i in order <==> i in order[..n] || i == order[n];
    }
  }

  function UpTo(n: nat): (r: seq<nat>)
    ensures |r| == n && forall i :: 0 <= i < n ==> r[i] == i
  {
    seq(n, i => i)
  }

  /** Whatever the interleaving of the slaves' writes, each slave clearing its own block in order, the memory is
      the one that clearing the array from end to end gives. */
  lemma AnyInterleavingClears(mem: Memory, base: Addr, size: nat, p: nat, log: seq<Ev<nat>>)
    requires p > 0 && Below(log, p)
    requires forall t :: 0 <= t < p ==> Proj(log, t) == Block(UpTo(size), p, t)
    ensures ClearAll(mem, base, Whats(log)) == ClearAll(mem, base, UpTo(size))
    ensures forall i :: 0 <= i < size ==>
              EntryAt(base, i) in ClearAll(mem, base, Whats(log))
                && ClearAll(mem, base, Whats(log))[EntryAt(base, i)] == EMPTY_ENTRY
    ensures EMPTY_ENTRY.keyLen == 0 && EMPTY_ENTRY.next == NULL == 0 && EMPTY_ENTRY.val == 0
  {
    LogPermutesBatch(log, UpTo(size), p);
    SameMembers(Whats(log), UpTo(size));
    var x, y := ClearAll(mem, base, Whats(log)), ClearAll(mem, base, UpTo(size));
    forall a: Addr ensures (a in x <==> a in y) && (a in x ==> x[a] == y[a]) {
      ClearAllIs(mem, base, Whats(log), a);
      ClearAllIs(mem, base, UpTo(size), a);
    }
    forall i | 0 <= i < size ensures EntryAt(base, i) in y && y[EntryAt(base, i)] == EMPTY_ENTRY {
      assert i in UpTo(size) by { assert UpTo(size)[i] == i; }
      ClearAllIs(mem, base, UpTo(size), EntryAt(base, i));
    }
  }

  // --- The step system ----------------------------------------------------------------------

  /** The id the host pushed and the space the DPU set aside. */
  datatype CreateConfig = CreateConfig(id: int, spaceAddr: Addr, spaceSize: nat)

  datatype SlavePc = BeforeBarrier1 | InBarrier1 | Clearing(i: nat) | InBarrier2 | Done

  /** `index` is the slot the master registered, or None when all were taken. */
  datatype CreateState = CreateState(mem: Memory, descs: seq<IndexDesc>, index: Option<nat>,
                                     master: MasterPc, slaves: seq<SlavePc>)

  /** The descriptor of the n-th index. */
  function DescAt(cfg: CreateConfig, n: nat): IndexDesc
    requires EntriesPerSlot(cfg.spaceSize) >= 1
  {
    var size := BucketsPerIndex(cfg.spaceSize);
    IndexDesc(cfg.id, size, size - 1, 0, SlotBase(cfg.spaceAddr, cfg.spaceSize, n))
  }

  predicate Arrived1(s: CreateState) {
    s.master != MPrepare && forall t :: 0 <= t < |s.slaves| ==> !s.slaves[t].BeforeBarrier1?
  }

  predicate Arrived2(s: CreateState) {
    (s.master == MWait2 || s.master == MMerge || s.master == MDone)
    && forall t :: 0 <= t < |s.slaves| ==> s.slaves[t].InBarrier2? || s.slaves[t].Done?
  }

  function MasterCreates(cfg: CreateConfig, s: CreateState): Option<CreateState>
    requires EntriesPerSlot(cfg.spaceSize) >= 1
  {
    match s.master
    case MPrepare =>
      var n := |s.descs|;
      if n >= MAX_INDEXES then Some(s.(index := None, master := MWait1))
      else Some(s.(index := Some(n), descs := s.descs + [DescAt(cfg, n)], master := MWait1))
    case MWait1 => if Arrived1(s) then Some(s.(master := MRun)) else None
    case MRun => Some(s.(master := MWait2))
    case MWait2 => if Arrived2(s) then Some(s.(master := MMerge)) else None
    case MMerge => Some(s.(master := MDone))
    case MDone => None
  }

  function Advance(s: CreateState, t: nat, pc: SlavePc): CreateState
    requires t < |s.slaves|
  {
    s.(slaves := s.slaves[t := pc])
  }

  function SlaveClears(s: CreateState, t: nat): Option<CreateState>
    requires t < |s.slaves|
  {
    var p := |s.slaves|;
    match s.slaves[t]
    case BeforeBarrier1 => Some(Advance(s, t, InBarrier1))
    case InBarrier1 =>
      if !Arrived1(s) then None
      else if s.index.None? then Some(Advance(s, t, InBarrier2))
      else if s.index.value >= |s.descs| then None
      else Some(Advance(s, t, Clearing(BlockLow(t, p, s.descs[s.index.value].bucketsSize))))
    case Clearing(i) =>
      if s.index.None? || s.index.value >= |s.descs| then None
      else
        var desc := s.descs[s.index.value];
        if i < BlockLow(t + 1, p, desc.bucketsSize) then
          Some(Advance(s.(mem := s.mem[EntryAt(desc.buckets, i) := EMPTY_ENTRY]), t, Clearing(i + 1)))
        else Some(Advance(s, t, InBarrier2))
    case InBarrier2 => if Arrived2(s) then Some(Advance(s, t, Done)) else None
    case Done => None
  }

  /** A step of tasklet `who`: 0 is the master, the rest are slaves. */
  function CreateStep(cfg: CreateConfig, s: CreateState, who: nat): Option<CreateState>
    requires EntriesPerSlot(cfg.spaceSize) >= 1
  {
    if who == 0 then MasterCreates(cfg, s)
    else if who - 1 < |s.slaves| then SlaveClears(s, who - 1)
    else None
  }

  /** The index pointer is whatever the previous launch left. */
  ghost predicate CreateStart(s: CreateState) {
    s.master == MPrepare && |s.slaves| > 0 && forall t :: 0 <= t < |s.slaves| ==> s.slaves[t] == BeforeBarrier1
  }

  ghost predicate CreateDone(s: CreateState) {
    s.master == MDone && forall t :: 0 <= t < |s.slaves| ==> s.slaves[t].Done?
  }

  ghost predicate IsCreateRun(cfg: CreateConfig, run: seq<CreateState>, who: seq<nat>)
    requires EntriesPerSlot(cfg.spaceSize) >= 1
  {
    |run| == |who| + 1 && forall i :: 0 <= i < |who| ==> CreateStep(cfg, run[i], who[i]) == Some(run[i + 1])
  }

  // --- The invariant ------------------------------------------------------------------------

  /** Buckets to be cleared: none when all slots were taken. */
  function ToClear(cfg: CreateConfig, descs: seq<IndexDesc>): nat
    requires EntriesPerSlot(cfg.spaceSize) >= 1
  {
    if |descs| < MAX_INDEXES then BucketsPerIndex(cfg.spaceSize) else 0
  }

  function BaseFor(cfg: CreateConfig, descs: seq<IndexDesc>): Addr {
    SlotBase(cfg.spaceAddr, cfg.spaceSize, |descs|)
  }

  /** The descriptors after a create: one more, unless all slots were taken. */
  function Registered(cfg: CreateConfig, descs: seq<IndexDesc>): seq<IndexDesc>
    requires EntriesPerSlot(cfg.spaceSize) >= 1
  {
    if |descs| < MAX_INDEXES then descs + [DescAt(cfg, |descs|)] else descs
  }

  /** How many entries of its block a slave has cleared. */
  function Cleared(pc: SlavePc, t: nat, p: nat, n: nat): int
    requires t < p
  {
    match pc
    case BeforeBarrier1 => 0
    case InBarrier1 => 0
    case Clearing(i) => i - BlockLow(t, p, n)
    case InBarrier2 => BlockLow(t + 1, p, n) - BlockLow(t, p, n)
    case Done => BlockLow(t + 1, p, n) - BlockLow(t, p, n)
  }

  predicate Begun(pc: SlavePc) {
    !pc.BeforeBarrier1? && !pc.InBarrier1?
  }

  ghost predicate IndexKnown(cfg: CreateConfig, descs: seq<IndexDesc>, s: CreateState)
    requires EntriesPerSlot(cfg.spaceSize) >= 1
  {
    if s.master == MPrepare then s.descs == descs
    else s.descs == Registered(cfg, descs) && s.index == if |descs| < MAX_INDEXES then Some(|descs|) else None
  }

  ghost predicate Phases(s: CreateState) {
    && (s.master != MPrepare && s.master != MWait1 ==> Arrived1(s))
    && (forall t :: 0 <= t < |s.slaves| && Begun(s.slaves[t]) ==> Arrived1(s))
    && (s.master == MMerge || s.master == MDone ==> Arrived2(s))
    && (forall t :: 0 <= t < |s.slaves| && s.slaves[t].Done? ==> Arrived2(s))
  }

  /** Each slave has written the first entries of its block, in order. */
  ghost predicate SlavesOk(slaves: seq<SlavePc>, log: seq<Ev<nat>>, n: nat) {
    forall t :: 0 <= t < |slaves| ==> SlaveOk(slaves, log, n, t)
  }

  ghost predicate SlaveOk(slaves: seq<SlavePc>, log: seq<Ev<nat>>, n: nat, t: nat)
    requires t < |slaves|
  {
    var p := |slaves|;
    && (slaves[t].Clearing? ==> n > 0)
    && 0 <= Cleared(slaves[t], t, p, n) <= |Block(UpTo(n), p, t)|
    && Proj(log, t) == Block(UpTo(n), p, t)[..Cleared(slaves[t], t, p, n)]
  }

  /** The invariant of a create launch that began with `mem` and `descs`; `log` are the writes so far. */
  ghost predicate CreateInv(cfg: CreateConfig, mem: Memory, descs: seq<IndexDesc>, s: CreateState, log: seq<Ev<nat>>)
    requires EntriesPerSlot(cfg.spaceSize) >= 1
  {
    && |s.slaves| > 0 && Below(log, |s.slaves|)
    && IndexKnown(cfg, descs, s) && Phases(s) && SlavesOk(s.slaves, log, ToClear(cfg, descs))
    && s.mem == ClearAll(mem, BaseFor(cfg, descs), Whats(log))
  }

  // --- Every step keeps it ------------------------------------------------------------------

  /** What a slave's step may do to its program counter. */
  ghost predicate Allowed(s: CreateState, pc: SlavePc, pc': SlavePc) {
    match pc
    case BeforeBarrier1 => pc'.InBarrier1?
    case InBarrier1 => Arrived1(s) && (pc'.Clearing? || pc'.InBarrier2?)
    case Clearing(_) => pc'.Clearing? || pc'.InBarrier2?
    case InBarrier2 => Arrived2(s) && pc'.Done?
    case Done => false
  }

  lemma SlavePhases(s: CreateState, t: nat, pc': SlavePc, s': CreateState)
    requires Phases(s) && t < |s.slaves| && Allowed(s, s.slaves[t], pc')
    requires s' == Advance(s.(mem := s'.mem), t, pc')
    ensures Phases(s')
  {
    if s.slaves[t].BeforeBarrier1? {
      assert !Arrived1(s) && !Arrived2(s);
    } else if s.slaves[t].InBarrier1? {
      assert Arrived1(s) && Arrived1(s') && !Arrived2(s);
    } else if s.slaves[t].Clearing? {
      assert Arrived1(s) && Arrived1(s') && !Arrived2(s);
    } else {
      assert Arrived1(s) && Arrived1(s') && Arrived2(s) && Arrived2(s');
    }
  }

  lemma MasterKeeps(cfg: CreateConfig, mem: Memory, descs: seq<IndexDesc>, s: CreateState, log: seq<Ev<nat>>,
                    s': CreateState)
    requires EntriesPerSlot(cfg.spaceSize) >= 1 && CreateInv(cfg, mem, descs, s, log)
    requires MasterCreates(cfg, s) == Some(s')
    ensures CreateInv(cfg, mem, descs, s', log)
  {
    hide SlavesOk, ClearAll, DescAt;
  }

  lemma BlockAt(n: nat, p: nat, t: nat, j: nat)
    requires t < p && j < |Block(UpTo(n), p, t)|
    ensures Block(UpTo(n), p, t)[j] == BlockLow(t, p, n) + j
  {
    BlockLowMonotone(t, t + 1, p, n);
    BlockLowMonotone(t + 1, p, p, n);
    hide BlockLow;
  }

  lemma BlockBounds(n: nat, p: nat, t: nat)
    requires t < p
    ensures |Block(UpTo(n), p, t)| == BlockLow(t + 1, p, n) - BlockLow(t, p, n)
    ensures BlockLow(t, p, n) <= BlockLow(t + 1, p, n) && (n == 0 ==> |Block(UpTo(n), p, t)| == 0)
  {
    BlockLowMonotone(t, t + 1, p, n);
  }

  lemma SlaveMoves(slaves: seq<SlavePc>, log: seq<Ev<nat>>, n: nat, t: nat, pc': SlavePc)
    requires SlavesOk(slaves, log, n) && t < |slaves|
    requires Cleared(pc', t, |slaves|, n) == Cleared(slaves[t], t, |slaves|, n) && (pc'.Clearing? ==> n > 0)
    ensures SlavesOk(slaves[t := pc'], log, n)
  {
    hide Block, Proj, BlockLow;
    assert SlaveOk(slaves, log, n, t);
    var after := slaves[t := pc'];
    forall u | 0 <= u < |slaves| ensures SlaveOk(after, log, n, u) {
      assert SlaveOk(slaves, log, n, u);
    }
  }

  lemma SlaveWrites(slaves: seq<SlavePc>, log: seq<Ev<nat>>, n: nat, t: nat, i: nat)
    requires SlavesOk(slaves, log, n) && t < |slaves| && slaves[t] == Clearing(i) && i < BlockLow(t + 1, |slaves|, n)
    ensures SlavesOk(slaves[t := Clearing(i + 1)], log + [Ev(t, i)], n)
  {
    var p := |slaves|;
    BlockBounds(n, p, t);
    hide Block, Proj, BlockLow;
    assert SlaveOk(slaves, log, n, t);
    var block, k := Block(UpTo(n), p, t), Cleared(slaves[t], t, p, n);
    BlockAt(n, p, t, k);
    assert block[..k + 1] == block[..k] + [i];
    var after, log' := slaves[t := Clearing(i + 1)], log + [Ev(t, i)];
    forall u | 0 <= u < p ensures SlaveOk(after, log', n, u) {
      assert SlaveOk(slaves, log, n, u);
      ProjAppend(log, Ev(t, i), u);
    }
  }

  lemma WhatsAppend(log: seq<Ev<nat>>, e: Ev<nat>)
    ensures Whats(log + [e]) == Whats(log) + [e.what]
  {
  }

  lemma ClearOneMore(mem: Memory, base: Addr, order: seq<nat>, i: nat)
    ensures ClearAll(mem, base, order + [i]) == ClearAll(mem, base, order)[EntryAt(base, i) := EMPTY_ENTRY]
  {
    assert (order + [i])[..|order|] == order;
  }

  /** What the slaves know of the index once they are past the first barrier. */
  lemma IndexAfterBarrier(cfg: CreateConfig, mem: Memory, descs: seq<IndexDesc>, s: CreateState, log: seq<Ev<nat>>,
                          t: nat)
    requires EntriesPerSlot(cfg.spaceSize) >= 1 && CreateInv(cfg, mem, descs, s, log) && t < |s.slaves|
    requires s.slaves[t].Clearing? || (s.slaves[t].InBarrier1? && Arrived1(s))
    ensures s.index.None? <==> ToClear(cfg, descs) == 0
    ensures s.index.Some? ==>
              && s.index.value < |s.descs| && s.descs[s.index.value].bucketsSize == ToClear(cfg, descs)
              && s.descs[s.index.value].buckets == BaseFor(cfg, descs)
    ensures s.slaves[t].Clearing? ==> s.index.Some?
  {
    hide ClearAll, BucketsPerIndex, SlotBase, Block, BlockLow, Proj;
    assert SlaveOk(s.slaves, log, ToClear(cfg, descs), t);
    assert s.master != MPrepare;
  }

  lemma SlaveKeeps(cfg: CreateConfig, mem: Memory, descs: seq<IndexDesc>, s: CreateState, log: seq<Ev<nat>>,
                   t: nat, s': CreateState)
    returns (log': seq<Ev<nat>>)
    requires EntriesPerSlot(cfg.spaceSize) >= 1 && CreateInv(cfg, mem, descs, s, log)
    requires t < |s.slaves| && SlaveClears(s, t) == Some(s')
    ensures CreateInv(cfg, mem, descs, s', log')
  {
    hide SlavesOk, ClearAll, ToClear, BaseFor, Registered, Phases, Block, BlockLow, Whats, Arrived1, Arrived2;
    var n, pc, pc' := ToClear(cfg, descs), s.slaves[t], s'.slaves[t];
    if pc.Clearing? || pc.InBarrier1? { IndexAfterBarrier(cfg, mem, descs, s, log, t); }
    BlockBounds(n, |s.slaves|, t);
    SlavePhases(s, t, pc', s');
    if pc.Clearing? && pc'.Clearing? {
      SlaveWrites(s.slaves, log, n, t, pc.i);
      log' := log + [Ev(t, pc.i)];
      WhatsAppend(log, Ev(t, pc.i));
      ClearOneMore(mem, BaseFor(cfg, descs), Whats(log), pc.i);
    } else {
      log' := log;
      SlaveAt(s.slaves, log, n, t);
      SlaveMoves(s.slaves, log, n, t, pc');
    }
  }

  lemma SlaveAt(slaves: seq<SlavePc>, log: seq<Ev<nat>>, n: nat, t: nat)
    requires SlavesOk(slaves, log, n) && t < |slaves|
    ensures 0 <= Cleared(slaves[t], t, |slaves|, n) <= |Block(UpTo(n), |slaves|, t)|
    ensures Proj(log, t) == Block(UpTo(n), |slaves|, t)[..Cleared(slaves[t], t, |slaves|, n)]
  {
    assert SlaveOk(slaves, log, n, t);
  }

  /** Every step of every tasklet keeps the invariant. */
  lemma CreateStepKeepsInv(cfg: CreateConfig, mem: Memory, descs: seq<IndexDesc>, s: CreateState, log: seq<Ev<nat>>,
                           who: nat, s': CreateState)
    returns (log': seq<Ev<nat>>)
    requires EntriesPerSlot(cfg.spaceSize) >= 1 && CreateInv(cfg, mem, descs, s, log)
    requires CreateStep(cfg, s, who) == Some(s')
    ensures CreateInv(cfg, mem, descs, s', log')
  {
    hide CreateInv, MasterCreates, SlaveClears;
    if who == 0 {
      MasterKeeps(cfg, mem, descs, s, log, s');
      log' := log;
    } else {
      log' := SlaveKeeps(cfg, mem, descs, s, log, who - 1, s');
    }
  }

  lemma CreateStarts(cfg: CreateConfig, s: CreateState)
    requires EntriesPerSlot(cfg.spaceSize) >= 1 && CreateStart(s)
    ensures CreateInv(cfg, s.mem, s.descs, s, [])
  {
    var n := ToClear(cfg, s.descs);
    forall t | 0 <= t < |s.slaves| ensures SlaveOk(s.slaves, [], n, t) {
      BlockBounds(n, |s.slaves|, t);
    }
  }

  lemma {:induction false} CreateRunKeepsInv(cfg: CreateConfig, run: seq<CreateState>, who: seq<nat>, n: nat)
    returns (log: seq<Ev<nat>>)
    requires EntriesPerSlot(cfg.spaceSize) >= 1 && IsCreateRun(cfg, run, who) && CreateStart(run[0]) && n < |run|
    ensures CreateInv(cfg, run[0].mem, run[0].descs, run[n], log)
  {
    hide CreateInv, CreateStep;
    if n == 0 {
      log := [];
      CreateStarts(cfg, run[0]);
    } else {
      log := CreateRunKeepsInv(cfg, run, who, n - 1);
      log := CreateStepKeepsInv(cfg, run[0].mem, run[0].descs, run[n - 1], log, who[n - 1], run[n]);
    }
  }

  // --- The end ------------------------------------------------------------------------------

  /** Every finished create has registered the index, unless all slots were taken, and cleared exactly its buckets,
      whatever the interleaving. */
  lemma CreateEnds(cfg: CreateConfig, run: seq<CreateState>, who: seq<nat>)
    requires EntriesPerSlot(cfg.spaceSize) >= 1 && IsCreateRun(cfg, run, who)
    requires CreateStart(run[0]) && CreateDone(run[|who|])
    ensures run[|who|].descs == Registered(cfg, run[0].descs)
    ensures run[|who|].mem == ClearAll(run[0].mem, BaseFor(cfg, run[0].descs), UpTo(ToClear(cfg, run[0].descs)))
  {
    hide CreateStep, ClearAll, BaseFor, ToClear, Registered;
    var log := CreateRunKeepsInv(cfg, run, who, |who|);
    var s, n := run[|who|], ToClear(cfg, run[0].descs);
    var p := |s.slaves|;
    forall t | 0 <= t < p ensures Proj(log, t) == Block(UpTo(n), p, t) {
      SlaveAt(s.slaves, log, n, t);
      BlockBounds(n, p, t);
    }
    AnyInterleavingClears(run[0].mem, BaseFor(cfg, run[0].descs), n, p, log);
  }

  // --- Progress and termination -------------------------------------------------------------

  function MasterRank(pc: MasterPc): nat {
    match pc case MPrepare => 5 case MWait1 => 4 case MRun => 3 case MWait2 => 2 case MMerge => 1 case MDone => 0
  }

  /** Steps a slave has left. */
  function SlaveRank(pc: SlavePc, t: nat, p: nat, n: nat): int
    requires t < p
  {
    match pc
    case BeforeBarrier1 => 4 + BlockLow(t + 1, p, n) - BlockLow(t, p, n)
    case InBarrier1 => 3 + BlockLow(t + 1, p, n) - BlockLow(t, p, n)
    case Clearing(i) => 2 + BlockLow(t + 1, p, n) - i
    case InBarrier2 => 1
    case Done => 0
  }

  function SlavesRank(slaves: seq<SlavePc>, n: nat, k: nat): int
    requires k <= |slaves|
  {
    if k == 0 then 0 else SlavesRank(slaves, n, k - 1) + SlaveRank(slaves[k - 1], k - 1, |slaves|, n)
  }

  function CreateLeft(s: CreateState, n: nat): int {
    MasterRank(s.master) + SlavesRank(s.slaves, n, |s.slaves|)
  }

  lemma {:induction false} RankMoves(slaves: seq<SlavePc>, n: nat, t: nat, pc': SlavePc, k: nat)
    requires t < |slaves| && k <= |slaves|
    ensures SlavesRank(slaves[t := pc'], n, k) - SlavesRank(slaves, n, k) ==
            if t < k then SlaveRank(pc', t, |slaves|, n) - SlaveRank(slaves[t], t, |slaves|, n) else 0
  {
    hide SlaveRank;
    if k > 0 { RankMoves(slaves, n, t, pc', k - 1); }
  }

  lemma {:induction false} RankNonNegative(slaves: seq<SlavePc>, log: seq<Ev<nat>>, n: nat, k: nat)
    requires SlavesOk(slaves, log, n) && k <= |slaves|
    ensures SlavesRank(slaves, n, k) >= 0
  {
    hide SlavesOk, BlockLow;
    if k > 0 {
      RankNonNegative(slaves, log, n, k - 1);
      SlaveAt(slaves, log, n, k - 1);
      BlockBounds(n, |slaves|, k - 1);
    }
  }

  /** Every step lowers the number of steps left. */
  lemma CreateStepLowers(cfg: CreateConfig, mem: Memory, descs: seq<IndexDesc>, s: CreateState, log: seq<Ev<nat>>,
                         who: nat, s': CreateState)
    requires EntriesPerSlot(cfg.spaceSize) >= 1 && CreateInv(cfg, mem, descs, s, log)
    requires CreateStep(cfg, s, who) == Some(s')
    ensures CreateLeft(s', ToClear(cfg, descs)) < CreateLeft(s, ToClear(cfg, descs))
  {
    hide SlavesRank, ClearAll, Whats, BlockLow, ToClear, Registered, Block, Arrived1, Arrived2, DescAt;
    if who > 0 {
      var t, n := who - 1, ToClear(cfg, descs);
      var pc := s.slaves[t];
      if pc.Clearing? || pc.InBarrier1? { IndexAfterBarrier(cfg, mem, descs, s, log, t); }
      SlaveAt(s.slaves, log, n, t);
      BlockBounds(n, |s.slaves|, t);
      RankMoves(s.slaves, n, t, s'.slaves[t], |s.slaves|);
    }
  }

  /** In every reachable state the launch is over or some tasklet can step. */
  lemma CreateProgress(cfg: CreateConfig, mem: Memory, descs: seq<IndexDesc>, s: CreateState, log: seq<Ev<nat>>)
    returns (who: nat)
    requires EntriesPerSlot(cfg.spaceSize) >= 1 && CreateInv(cfg, mem, descs, s, log) && !CreateDone(s)
    ensures CreateStep(cfg, s, who).Some?
  {
    hide SlavesOk, ClearAll, ToClear, BaseFor, Registered, DescAt;
    if (s.master == MWait1 && !Arrived1(s)) || (s.master == MWait2 && !Arrived2(s)) || s.master == MDone {
      var t :| 0 <= t < |s.slaves|
        && if s.master == MWait1 then s.slaves[t].BeforeBarrier1?
           else if s.master == MWait2 then !s.slaves[t].InBarrier2? && !s.slaves[t].Done?
           else !s.slaves[t].Done?;
      if s.slaves[t].Clearing? || (s.slaves[t].InBarrier1? && Arrived1(s)) {
        IndexAfterBarrier(cfg, mem, descs, s, log, t);
      }
      who := t + 1;
    } else {
      who := 0;
    }
  }

  lemma {:induction false} CreateRunLowers(cfg: CreateConfig, run: seq<CreateState>, who: seq<nat>, n: nat)
    requires EntriesPerSlot(cfg.spaceSize) >= 1 && IsCreateRun(cfg, run, who) && CreateStart(run[0]) && n < |run|
    ensures CreateLeft(run[n], ToClear(cfg, run[0].descs)) + n <= CreateLeft(run[0], ToClear(cfg, run[0].descs))
  {
    hide CreateInv, CreateStep, CreateLeft, ToClear;
    if n > 0 {
      CreateRunLowers(cfg, run, who, n - 1);
      var log := CreateRunKeepsInv(cfg, run, who, n - 1);
      CreateStepLowers(cfg, run[0].mem, run[0].descs, run[n - 1], log, who[n - 1], run[n]);
    }
  }

  lemma {:induction false} RankAtStart(slaves: seq<SlavePc>, n: nat, k: nat)
    requires k <= |slaves| && |slaves| > 0 && forall t :: 0 <= t < |slaves| ==> slaves[t] == BeforeBarrier1
    ensures SlavesRank(slaves, n, k) == 4 * k + BlockLow(k, |slaves|, n)
  {
    BlockLowMonotone(0, k, |slaves|, n);
    hide BlockLow;
    if k > 0 { RankAtStart(slaves, n, k - 1); }
  }

  /** Every run of a create has at most one step per bucket, four per slave and five of the master. */
  lemma EveryCreateIsBounded(cfg: CreateConfig, run: seq<CreateState>, who: seq<nat>)
    requires EntriesPerSlot(cfg.spaceSize) >= 1 && IsCreateRun(cfg, run, who) && CreateStart(run[0])
    ensures |who| <= ToClear(cfg, run[0].descs) + 4 * |run[0].slaves| + 5
  {
    hide CreateStep, ToClear, ClearAll;
    var n := ToClear(cfg, run[0].descs);
    var log := CreateRunKeepsInv(cfg, run, who, |who|);
    CreateRunLowers(cfg, run, who, |who|);
    RankNonNegative(run[|who|].slaves, log, n, |run[|who|].slaves|);
    RankAtStart(run[0].slaves, n, |run[0].slaves|);
    BlockLowMonotone(0, 0, |run[0].slaves|, n);
  }

  lemma {:induction false} CreateToEnd(cfg: CreateConfig, mem: Memory, descs: seq<IndexDesc>, s: CreateState,
                                       log: seq<Ev<nat>>)
    returns (run: seq<CreateState>, who: seq<nat>)
    requires EntriesPerSlot(cfg.spaceSize) >= 1 && CreateInv(cfg, mem, descs, s, log)
    ensures IsCreateRun(cfg, run, who) && run[0] == s && CreateDone(run[|who|])
    decreases CreateLeft(s, ToClear(cfg, descs)) + 1
  {
    hide CreateStep, CreateDone, ToClear, ClearAll, Phases, IndexKnown, SlavesOk, SlavesRank;
    RankNonNegative(s.slaves, log, ToClear(cfg, descs), |s.slaves|);
    if CreateDone(s) {
      run, who := [s], [];
    } else {
      var t := CreateProgress(cfg, mem, descs, s, log);
      var s' := CreateStep(cfg, s, t).value;
      CreateStepLowers(cfg, mem, descs, s, log, t, s');
      var log' := CreateStepKeepsInv(cfg, mem, descs, s, log, t, s');
      var rest, next := CreateToEnd(cfg, mem, descs, s', log');
      run, who := [s] + rest, [t] + next;
    }
  }

  /** Every create can be run to its end. */
  lemma CreateFinishes(cfg: CreateConfig, s: CreateState) returns (run: seq<CreateState>, who: seq<nat>)
    requires EntriesPerSlot(cfg.spaceSize) >= 1 && CreateStart(s)
    ensures IsCreateRun(cfg, run, who) && run[0] == s && CreateDone(run[|who|])
  {
    hide CreateInv, CreateStep, CreateDone;
    CreateStarts(cfg, s);
    run, who := CreateToEnd(cfg, s.mem, s.descs, s, []);
  }
}
