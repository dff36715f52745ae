/** Which parts of the launch invariant a step of one tasklet leaves alone, and why. */
module TaskletFrames {
  import opened Util
  import opened Entries
  import opened ChainHeap
  import opened PrimaryIndex
  import opened Tasklets
  import opened TaskletInvariant

  // --- Node demand ------------------------------------------------------------------------

  lemma {:induction false} DemandUpdate(cfg: Config, tasks: seq<Task>, t: nat, k: Task, n: nat)
    requires n <= |tasks| && t < |tasks|
    ensures TotalDemand(cfg, tasks[t := k], n) ==
            TotalDemand(cfg, tasks, n)
            + if t < n then Demand(cfg, |tasks|, t, k) - Demand(cfg, |tasks|, t, tasks[t]) else 0
  {
    if n > 0 { DemandUpdate(cfg, tasks, t, k, n - 1); }
  }

  lemma {:induction false} DemandPositive(cfg: Config, tasks: seq<Task>, n: nat, t: nat)
    requires t < n <= |tasks|
    requires forall u :: 0 <= u < |tasks| ==> Demand(cfg, |tasks|, u, tasks[u]) >= 0
    ensures TotalDemand(cfg, tasks, n) >= Demand(cfg, |tasks|, t, tasks[t])
  {
    DemandNonNegative(cfg, tasks, n - 1);
    if t < n - 1 { DemandPositive(cfg, tasks, n - 1, t); }
  }

  lemma {:induction false} DemandNonNegative(cfg: Config, tasks: seq<Task>, n: nat)
    requires n <= |tasks|
    requires forall u :: 0 <= u < |tasks| ==> Demand(cfg, |tasks|, u, tasks[u]) >= 0
    ensures TotalDemand(cfg, tasks, n) >= 0
  {
    if n > 0 { DemandNonNegative(cfg, tasks, n - 1); }
  }

  lemma {:induction false} DemandAtLaunch(cfg: Config, tasks: seq<Task>, n: nat)
    requires n <= |tasks| && |tasks| > 0
    requires forall t :: 0 <= t < |tasks| ==> tasks[t] == Task(AtStart, 0, [])
    ensures TotalDemand(cfg, tasks, n) == BlockLow(n, |tasks|, |cfg.items|)
    ensures n == |tasks| ==> TotalDemand(cfg, tasks, n) == |cfg.items|
  {
    BlockLowMonotone(n, n, |tasks|, |cfg.items|);
    if n > 0 { DemandAtLaunch(cfg, tasks, n - 1); }
  }

  // --- Parts untouched by a step ------------------------------------------------------------

  /** Tasklet t went from k to k'. */
  ghost predicate Moved(s: State, s': State, t: nat, k: Task, k': Task) {
    t < |s.tasks| && s.tasks[t] == k && s'.tasks == s.tasks[t := k']
  }

  lemma HeapGhost(cfg: Config, g: Ghost, g': Ghost)
    requires cfg.size > 0 && HeapPart(cfg, g) && g'.vmem == g.vmem && g'.view == g.view
    ensures HeapPart(cfg, g')
  {
  }

  lemma HeapOf(cfg: Config, g: Ghost)
    requires cfg.size > 0 && HeapPart(cfg, g)
    ensures HeapOk(g.vmem, cfg.heads, g.view) && Homed(g.view.recs, cfg.size)
  {
  }

  lemma KeepTasks(cfg: Config, s: State, s': State, g: Ghost, g': Ghost, t: nat, k: Task, k': Task)
    requires ConfigOk(cfg) && Moved(s, s', t, k, k') && TasksOk(cfg, s, g)
    requires g'.vmem == g.vmem && g'.view == g.view && TaskOk(cfg, g.vmem, g.view, |s.tasks|, t, k')
    ensures TasksOk(cfg, s', g')
  {
  }

  lemma KeepBucketLocks(cfg: Config, s: State, s': State, t: nat, k: Task, k': Task)
    requires ConfigOk(cfg) && Moved(s, s', t, k, k') && BucketLocksOk(cfg, s) && s'.locks == s.locks
    requires HoldsBucket(k'.pc) == HoldsBucket(k.pc) && (HoldsBucket(k.pc) ==> k'.handled == k.handled)
    ensures BucketLocksOk(cfg, s')
  {
    hide HoldsBucket, Block, LocalBucket, BucketOf;
  }

  lemma KeepAllocLock(s: State, s': State, t: nat, k: Task, k': Task)
    requires Moved(s, s', t, k, k') && AllocLockOk(s) && s'.allocLock == s.allocLock
             && HoldsAlloc(k'.pc) == HoldsAlloc(k.pc)
    ensures AllocLockOk(s')
  {
    hide HoldsAlloc;
  }

  lemma KeepResLock(s: State, s': State, t: nat, k: Task, k': Task)
    requires Moved(s, s', t, k, k') && ResLockOk(s) && s'.resLock == s.resLock
             && HoldsResults(k'.pc) == HoldsResults(k.pc)
    ensures ResLockOk(s')
  {
    hide HoldsResults;
  }

  lemma KeepLocks(cfg: Config, s: State, s': State, t: nat, k: Task, k': Task)
    requires ConfigOk(cfg) && Moved(s, s', t, k, k') && LocksOk(cfg, s)
    requires s'.locks == s.locks && s'.allocLock == s.allocLock && s'.resLock == s.resLock
    requires HoldsBucket(k'.pc) == HoldsBucket(k.pc) && (HoldsBucket(k.pc) ==> k'.handled == k.handled)
    requires HoldsAlloc(k'.pc) == HoldsAlloc(k.pc) && HoldsResults(k'.pc) == HoldsResults(k.pc)
    ensures LocksOk(cfg, s')
  {
    hide BucketLocksOk, AllocLockOk, ResLockOk;
    KeepBucketLocks(cfg, s, s', t, k, k');
    KeepAllocLock(s, s', t, k, k');
    KeepResLock(s, s', t, k, k');
  }

  lemma KeepNodes(cfg: Config, s: State, s': State, g: Ghost, g': Ghost, t: nat, k: Task, k': Task)
    requires Moved(s, s', t, k, k') && NodesOk(cfg, s, g) && g'.vmem.Keys == g.vmem.Keys
    requires s'.cur == s.cur && s'.avail == s.avail
    requires s'.allocLock == s.allocLock || (s.allocLock.None? && s'.allocLock == Some(t))
             || (s.allocLock == Some(t) && s'.allocLock.None?)
    requires !k'.pc.InsAllocCur? || (k.pc.InsAllocCur? && k'.pc.node == k.pc.node)
    requires !k.pc.InsAllocAvail? && !k'.pc.InsAllocAvail?
    requires HasNode(k'.pc) ==> HasNode(k.pc) && k'.pc.node == k.pc.node
    requires Demand(cfg, |s.tasks|, t, k') <= Demand(cfg, |s.tasks|, t, k)
    ensures NodesOk(cfg, s', g')
  {
    DemandUpdate(cfg, s.tasks, t, k', |s.tasks|);
  }

  lemma KeepMemory(cfg: Config, s: State, s': State, g: Ghost, g': Ghost, t: nat, k: Task, k': Task)
    requires cfg.size > 0 && Moved(s, s', t, k, k') && MemoryPart(cfg, s, g)
    requires s'.mem == s.mem && g'.vmem == g.vmem && g'.dirty == g.dirty
    requires !k.pc.InsFill? && !k'.pc.InsFill?
    ensures MemoryPart(cfg, s', g')
  {
    hide CurBucket;
  }

  lemma KeepLog(cfg: Config, recs0: seq<seq<Rec>>, s: State, s': State, g: Ghost, g': Ghost, t: nat, k: Task, k': Task)
    requires cfg.size > 0 && Moved(s, s', t, k, k') && LogOk(cfg, recs0, s.tasks, g)
    requires g'.view.recs == g.view.recs && g'.log == g.log && g'.metas == g.metas
    requires Committed(cfg, k') == Committed(cfg, k)
    ensures LogOk(cfg, recs0, s'.tasks, g')
  {
  }

  lemma KeepResults(cfg: Config, recs0: seq<seq<Rec>>, s: State, s': State, g: Ghost, g': Ghost, t: nat, k: Task,
                    k': Task)
    requires cfg.size > 0 && Moved(s, s', t, k, k') && ResultsOk(cfg, recs0, s, g)
    requires s'.data == s.data && s'.nnz == s.nnz && s'.master == s.master && g'.rlog == g.rlog
    requires !k'.pc.FlushWritten?
    requires cfg.op == LookupOp ==> Answered(k') == Answered(k) && Unflushed(k') == Unflushed(k)
    ensures ResultsOk(cfg, recs0, s', g')
  {
  }

  lemma KeepPhase(cfg: Config, s: State, s': State, t: nat, k: Task, k': Task)
    requires Moved(s, s', t, k, k') && PhaseOk(cfg, s)
    requires s'.master == s.master && s'.index == s.index && s'.batch == s.batch
    requires s'.resultSize == s.resultSize && (AllArrived2(s) ==> s'.nnz == s.nnz)
    requires !BeforeWork(k.pc) && !BeforeWork(k'.pc) && !AfterWork(k.pc) && !k'.pc.Finished?
    ensures PhaseOk(cfg, s')
    ensures s.index == FindIndex(cfg.descs, cfg.id) && s.batch == cfg.items && s.master != MPrepare
  {
    assert AllArrived1(s);
    assert AllArrived1(s');
    assert !AllArrived2(s);
    assert s.master != MMerge && s.master != MDone;
  }

  // --- What a tasklet knows survives what others do -----------------------------------------

  /** Two memories agree on a chain. */
  ghost predicate Same(vmem: Memory, vmem': Memory, ps: seq<Addr>) {
    forall i :: 0 <= i < |ps| && ps[i] in vmem ==> ps[i] in vmem' && vmem'[ps[i]] == vmem[ps[i]]
  }

  lemma PcFrame(op: OpType, vmem: Memory, vmem': Memory, ps: seq<Addr>, c: seq<Rec>, key: Key, pc: Pc)
    requires op != LookupOp && PcOk(op, vmem, ps, c, key, pc) && Same(vmem, vmem', ps)
    ensures PcOk(op, vmem', ps, c, key, pc)
  {
    if pc.DelScan? {
      var i: nat :| ScanAt(vmem, ps, c, key, i, pc.lastPtr, pc.last, pc.buf);
      assert ScanAt(vmem', ps, c, key, i, pc.lastPtr, pc.last, pc.buf);
    }
  }

  /** A change confined to bucket b leaves the knowledge of tasklets at other buckets intact. */
  lemma TaskFrame(cfg: Config, g: Ghost, g': Ghost, b: nat, p: nat, u: nat, k: Task)
    requires ConfigOk(cfg) && u < p && cfg.op != LookupOp
    requires TaskOk(cfg, g.vmem, g.view, p, u, k)
    requires |g'.view.chains| == |g.view.chains| && |g'.view.recs| == |g.view.recs|
    requires forall o :: 0 <= o < |g.view.chains| && o < |g.view.recs| && o != b ==>
               g'.view.chains[o] == g.view.chains[o] && g'.view.recs[o] == g.view.recs[o]
               && Same(g.vmem, g'.vmem, g.view.chains[o])
    requires HoldsBucket(k.pc) ==> CurBucket(cfg, p, u, k) != b
    ensures TaskOk(cfg, g'.vmem, g'.view, p, u, k)
  {
    if Working(k.pc) {
      var o := CurBucket(cfg, p, u, k);
      if o != b {
        PcFrame(cfg.op, g.vmem, g'.vmem, g.view.chains[o], g.view.recs[o], CurItem(cfg, p, u, k).key, k.pc);
      } else {
        assert k.pc.Acquire?;
      }
    }
  }

  lemma BucketsShareMutex(cfg: Config, key1: Key, key2: Key)
    requires cfg.size > 0 && BucketOf(cfg, key1) == BucketOf(cfg, key2)
    ensures LocalBucket(key1, cfg.size) == LocalBucket(key2, cfg.size)
  {
  }

  /** Two tasklets inside their buckets are in different buckets. */
  lemma Exclusive(cfg: Config, s: State, t: nat, u: nat)
    requires ConfigOk(cfg) && BucketLocksOk(cfg, s) && t < |s.tasks| && u < |s.tasks| && t != u
    requires HoldsBucket(s.tasks[t].pc) && HoldsBucket(s.tasks[u].pc)
    ensures CurBucket(cfg, |s.tasks|, t, s.tasks[t]) != CurBucket(cfg, |s.tasks|, u, s.tasks[u])
  {
    var p := |s.tasks|;
    if CurBucket(cfg, p, t, s.tasks[t]) == CurBucket(cfg, p, u, s.tasks[u]) {
      BucketsShareMutex(cfg, CurItem(cfg, p, t, s.tasks[t]).key, CurItem(cfg, p, u, s.tasks[u]).key);
      assert false;
    }
  }

  /** A tasklet inside its bucket, and not between its two insert writes, reads what `vmem` holds. */
  lemma CleanRead(cfg: Config, s: State, g: Ghost, t: nat, i: nat)
    requires ConfigOk(cfg) && BucketLocksOk(cfg, s) && MemoryPart(cfg, s, g) && HeapPart(cfg, g)
    requires t < |s.tasks| && HoldsBucket(s.tasks[t].pc) && !s.tasks[t].pc.InsFill?
    requires CurBucket(cfg, |s.tasks|, t, s.tasks[t]) < |g.view.chains|
    requires i < |g.view.chains[CurBucket(cfg, |s.tasks|, t, s.tasks[t])]|
    ensures var a := g.view.chains[CurBucket(cfg, |s.tasks|, t, s.tasks[t])][i];
            a in s.mem && a in g.vmem && s.mem[a] == g.vmem[a] && a !in g.dirty && a != NULL
  {
    hide Homed, LinkedOk, CurMutex, BucketOf, CurItem, BucketLocksOk;
    var p := |s.tasks|;
    var b := CurBucket(cfg, p, t, s.tasks[t]);
    var a := g.view.chains[b][i];
    assert ChainOk(g.vmem, g.view.chains[b], g.view.recs[b]);
    if a in g.dirty {
      var u := g.dirty[a];
      var b2 := CurBucket(cfg, p, u, s.tasks[u]);
      assert a == cfg.heads[b2] == g.view.chains[b2][0];
      assert g.view.owner[a] == b && g.view.owner[a] == b2;
      Exclusive(cfg, s, t, u);
      assert false;
    }
  }
}
