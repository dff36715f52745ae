/** Whole launches: what holds in every reachable state, that no reachable state is stuck, and what
    the final state is, whatever the interleaving. */
module TaskletTheorems {
  import opened Util
  import opened Entries
  import opened ChainHeap
  import opened IndexLayout
  import opened PrimaryIndex
  import opened Interleavings
  import opened Tasklets
  import opened TaskletInvariant
  import opened TaskletFrames
  import opened TaskletCommits
  import opened TaskletResults
  import opened TaskletRuns

  // --- Launch and runs ----------------------------------------------------------------------

  /** A memory that holds the well-formed chains of all indexes below the allocator's next address. */
  ghost predicate IndexOk(cfg: Config, mem: Memory, cur: Addr, view: View)
    requires cfg.size > 0
  {
    && HeapOk(mem, cfg.heads, view) && Homed(view.recs, cfg.size)
    && ENTRY_SIZE <= cur && (forall a :: a in mem ==> a + ENTRY_SIZE <= cur)
  }

  /** A launch state with a well-formed index and, for an insert batch, enough space. */
  ghost predicate Ready(cfg: Config, s: State, view: View) {
    && ConfigOk(cfg) && Launch(s) && IndexOk(cfg, s.mem, s.cur, view)
    && (cfg.op == InsertOp ==> s.avail >= ENTRY_SIZE * |cfg.items|)
  }

  ghost function InitialGhost(s: State, view: View): Ghost {
    Ghost(s.mem, view, map[], [], [], [])
  }

  lemma LaunchInv(cfg: Config, s: State, view: View)
    requires Ready(cfg, s, view)
    ensures Inv(cfg, view.recs, s, InitialGhost(s, view))
  {
    hide HeapOk, Homed, Block, HoldsBucket, CurMutex, CurBucket, Demand, TotalDemand;
    var g := InitialGhost(s, view);
    LaunchTasks(cfg, s, view);
    LaunchLocks(cfg, s);
    LaunchNodes(cfg, s, view);
    LaunchLog(cfg, s, view);
    assert |view.recs| == |cfg.heads| by { HeapSizes(s.mem, cfg.heads, view); }
    assert MemoryPart(cfg, s, g);
    assert PhaseOk(cfg, s);
  }

  lemma LaunchTasks(cfg: Config, s: State, view: View)
    requires Ready(cfg, s, view)
    ensures TasksOk(cfg, s, InitialGhost(s, view))
  {
    hide HeapOk, Homed;
  }

  lemma LaunchLocks(cfg: Config, s: State)
    requires ConfigOk(cfg) && Launch(s)
    ensures LocksOk(cfg, s)
  {
  }

  lemma LaunchNodes(cfg: Config, s: State, view: View)
    requires Ready(cfg, s, view)
    ensures NodesOk(cfg, s, InitialGhost(s, view))
  {
    hide HeapOk, Homed;
    DemandAtLaunch(cfg, s.tasks, |s.tasks|);
  }

  lemma LaunchLog(cfg: Config, s: State, view: View)
    requires Ready(cfg, s, view)
    ensures LogOk(cfg, view.recs, s.tasks, InitialGhost(s, view))
    ensures ResultsOk(cfg, view.recs, s, InitialGhost(s, view))
  {
    hide HeapOk, Homed;
  }

  /** The invariant holds in every state of every run. */
  lemma {:induction false} RunKeepsInv(cfg: Config, recs0: seq<seq<Rec>>, run: seq<State>, who: seq<nat>, g: Ghost,
                                       n: nat)
    returns (g': Ghost)
    requires IsRun(cfg, run, who) && n < |run| && Inv(cfg, recs0, run[0], g)
    ensures Inv(cfg, recs0, run[n], g')
  {
    hide Inv, Step;
    if n == 0 {
      g' := g;
    } else {
      g' := RunKeepsInv(cfg, recs0, run, who, g, n - 1);
      g' := StepKeepsInv(cfg, recs0, run[n - 1], g', who[n - 1], run[n]);
    }
  }

  // --- Consequences in every reachable state ------------------------------------------------

  /** A bucket is settled when no tasklet is between its two insert writes. */
  ghost predicate Settled(cfg: Config, s: State, b: nat)
    requires cfg.size > 0
  {
    forall t :: 0 <= t < |s.tasks| && s.tasks[t].pc.InsFill? ==> CurBucket(cfg, |s.tasks|, t, s.tasks[t]) != b
  }

  /** In every reachable state the chain of every bucket that no tasklet has locked, and in fact of every
      settled bucket, is well formed and holds the records of the elements that took effect so far. */
  lemma SettledChains(cfg: Config, recs0: seq<seq<Rec>>, s: State, g: Ghost, b: nat)
    requires Inv(cfg, recs0, s, g) && b < |cfg.heads| && Settled(cfg, s, b)
    ensures b < |g.view.chains| == |g.view.recs| && ChainOk(s.mem, g.view.chains[b], g.view.recs[b])
            && g.view.chains[b][0] == cfg.heads[b]
    ensures g.view.recs == Apply(cfg, recs0, g.log, g.metas)
  {
    hide TasksOk, LocksOk, NodesOk, PhaseOk, ResultsOk, Apply, Homed, CurBucket;
    DirtyOwners(cfg, s, g);
    assert ChainOk(g.vmem, g.view.chains[b], g.view.recs[b]);
    ChainFrame(g.vmem, s.mem, g.view.chains[b], g.view.recs[b]);
  }

  lemma DirtyOwners(cfg: Config, s: State, g: Ghost)
    requires cfg.size > 0 && HeapPart(cfg, g) && MemoryPart(cfg, s, g)
    ensures forall a :: a in g.dirty ==>
              a in g.view.owner && g.dirty[a] < |s.tasks|
                && g.view.owner[a] == CurBucket(cfg, |s.tasks|, g.dirty[a], s.tasks[g.dirty[a]])
  {
    hide CurBucket, Homed;
    forall a | a in g.dirty
      ensures a in g.view.owner && g.view.owner[a] == CurBucket(cfg, |s.tasks|, g.dirty[a], s.tasks[g.dirty[a]])
    {
      HeadOwner(g.vmem, cfg.heads, g.view, CurBucket(cfg, |s.tasks|, g.dirty[a], s.tasks[g.dirty[a]]));
    }
  }

  /** A bucket whose mutex is free is settled. */
  lemma UnlockedIsSettled(cfg: Config, recs0: seq<seq<Rec>>, s: State, g: Ghost, b: nat)
    requires Inv(cfg, recs0, s, g) && b < |cfg.heads| && cfg.pool[b % cfg.size] !in s.locks
    ensures Settled(cfg, s, b)
  {
    hide TasksOk, HeapPart, NodesOk, PhaseOk, ResultsOk, LogOk, MemoryPart, Block, AllocLockOk, ResLockOk;
    forall t | 0 <= t < |s.tasks| && s.tasks[t].pc.InsFill?
      ensures CurBucket(cfg, |s.tasks|, t, s.tasks[t]) != b
    {
      var key := CurItem(cfg, |s.tasks|, t, s.tasks[t]).key;
      BucketAtBounds(SlotOf(cfg), cfg.size, LocalBucket(key, cfg.size), SlotOf(cfg) + 1);
      assert CurMutex(cfg, |s.tasks|, t, s.tasks[t]) in s.locks;
    }
  }

  /** The two barriers: slaves touch the index only after the master's prepare, and the master merges only
      after every slave has dealt with its whole slice. */
  lemma BarriersSeparatePhases(cfg: Config, recs0: seq<seq<Rec>>, s: State, g: Ghost)
    requires Inv(cfg, recs0, s, g)
    ensures forall t :: 0 <= t < |s.tasks| && !BeforeWork(s.tasks[t].pc) ==>
              s.master != MPrepare && s.index == FindIndex(cfg.descs, cfg.id) && s.batch == cfg.items
    ensures s.master == MMerge || s.master == MDone ==>
              forall t :: 0 <= t < |s.tasks| ==>
                AfterWork(s.tasks[t].pc) && s.tasks[t].cache == []
                && s.tasks[t].handled == if FindIndex(cfg.descs, cfg.id).Some? then |Slice(cfg, |s.tasks|, t)| else 0
  {
    hide HeapPart, LocksOk, NodesOk, MemoryPart, LogOk, ResultsOk, Block;
  }

  // --- The final state ----------------------------------------------------------------------

  lemma FinishedTasks(cfg: Config, recs0: seq<seq<Rec>>, s: State, g: Ghost)
    requires Inv(cfg, recs0, s, g) && AllDone(s) && FindIndex(cfg.descs, cfg.id).Some?
    ensures forall t :: 0 <= t < |s.tasks| ==>
              s.tasks[t].pc == Finished && s.tasks[t].cache == [] && s.tasks[t].handled == |Slice(cfg, |s.tasks|, t)|
  {
    hide HeapPart, LocksOk, NodesOk, MemoryPart, LogOk, ResultsOk, PhaseOk, Block;
    forall t | 0 <= t < |s.tasks|
      ensures s.tasks[t].cache == [] && s.tasks[t].handled == |Slice(cfg, |s.tasks|, t)|
    {
      assert TaskOk(cfg, g.vmem, g.view, |s.tasks|, t, s.tasks[t]);
    }
  }

  /** When all is done the memory is a well-formed index whose records are the initial ones after the log. */
  lemma FinalMemory(cfg: Config, recs0: seq<seq<Rec>>, s: State, g: Ghost)
    requires Inv(cfg, recs0, s, g) && AllDone(s)
    ensures IndexOk(cfg, s.mem, s.cur, g.view) && |g.metas| == |g.log|
    ensures g.view.recs == Apply(cfg, recs0, g.log, g.metas)
    ensures s.locks == map[] && s.allocLock == None && s.resLock == None && |s.tasks| > 0
  {
    hide TasksOk, ResultsOk, PhaseOk, HeapOk, Homed, Apply, Block, CurMutex, Demand, TotalDemand;
    NothingDirty(cfg, s, g);
    hide MemoryPart;
  }

  /** An insert or delete batch that has finished has applied a permutation of the batch. */
  lemma FinalLog(cfg: Config, recs0: seq<seq<Rec>>, s: State, g: Ghost)
    requires Inv(cfg, recs0, s, g) && AllDone(s) && cfg.op != LookupOp && FindIndex(cfg.descs, cfg.id).Some?
    ensures multiset(Whats(g.log)) == multiset(cfg.items) && |s.tasks| > 0
    ensures forall t :: 0 <= t < |s.tasks| ==> Proj(g.log, t) == Block(cfg.items, |s.tasks|, t)
  {
    hide HeapPart, TasksOk, LocksOk, NodesOk, MemoryPart, ResultsOk, PhaseOk, Apply, Block;
    FinishedTasks(cfg, recs0, s, g);
    var p := |s.tasks|;
    forall t | 0 <= t < p ensures Proj(g.log, t) == Block(cfg.items, p, t) {
      var slice := Slice(cfg, p, t);
      assert Committed(cfg, s.tasks[t]) == |slice| && slice[..|slice|] == slice;
    }
    LogPermutesBatch(g.log, cfg.items, p);
  }

  lemma {:induction false} BlocksOfAnswers(cfg: Config, recs: seq<seq<Rec>>, p: nat, t: nat)
    requires cfg.size > 0 && t < p
    ensures Answers(cfg, recs, Block(cfg.items, p, t)) == Block(Answers(cfg, recs, cfg.items), p, t)
  {
    BlockLowMonotone(t, t + 1, p, |cfg.items|);
    BlockLowMonotone(t + 1, p, p, |cfg.items|);
  }

  /** A lookup batch that has finished leaves as many results as elements, a permutation of the answers. */
  lemma FinalResults(cfg: Config, recs0: seq<seq<Rec>>, s: State, g: Ghost)
    requires Inv(cfg, recs0, s, g) && AllDone(s) && cfg.op == LookupOp && FindIndex(cfg.descs, cfg.id).Some?
    ensures s.nnz == s.resultSize == |cfg.items| && s.resultSize <= |s.data|
    ensures multiset(s.data[..s.resultSize]) == multiset(Answers(cfg, recs0, cfg.items))
  {
    hide HeapPart, TasksOk, LocksOk, NodesOk, MemoryPart, LogOk, Answers, Answer, Block, AllArrived1, AllArrived2;
    FinishedTasks(cfg, recs0, s, g);
    var p := |s.tasks|;
    forall t | 0 <= t < p ensures Proj(g.rlog, t) == Block(Answers(cfg, recs0, cfg.items), p, t) {
      var slice := Slice(cfg, p, t);
      assert Answered(s.tasks[t]) == |slice| && slice[..|slice|] == slice;
      BlocksOfAnswers(cfg, recs0, p, t);
    }
    LogPermutesBatch(g.rlog, Answers(cfg, recs0, cfg.items), p);
    assert |multiset(Whats(g.rlog))| == |multiset(Answers(cfg, recs0, cfg.items))|;
    AnswersLength(cfg, recs0);
  }

  lemma AnswersLength(cfg: Config, recs: seq<seq<Rec>>)
    requires cfg.size > 0
    ensures |Answers(cfg, recs, cfg.items)| == |cfg.items|
  {
  }

  lemma LastProjected<T>(log: seq<Ev<T>>, t: nat)
    requires log != [] && log[|log| - 1].who == t
    ensures Proj(log, t) != []
  {
  }

  lemma EmptyProjections<T>(log: seq<Ev<T>>, p: nat)
    requires Below(log, p) && forall t :: 0 <= t < p ==> Proj(log, t) == []
    ensures log == []
  {
    hide Proj;
    if log != [] { LastProjected(log, log[|log| - 1].who); }
  }

  /** On an index id that does not exist a batch changes nothing and reports no results. */
  lemma FinalUnknown(cfg: Config, recs0: seq<seq<Rec>>, s: State, g: Ghost)
    requires Inv(cfg, recs0, s, g) && AllDone(s) && FindIndex(cfg.descs, cfg.id).None?
    ensures g.view.recs == recs0
    ensures cfg.op == LookupOp ==> s.resultSize == s.nnz == 0
  {
    hide HeapPart, LocksOk, NodesOk, MemoryPart, Block;
    UnknownTasks(cfg, recs0, s, g);
    EmptyProjections(g.log, |s.tasks|);
    if cfg.op == LookupOp { EmptyProjections(g.rlog, |s.tasks|); }
  }

  lemma UnknownTasks(cfg: Config, recs0: seq<seq<Rec>>, s: State, g: Ghost)
    requires Inv(cfg, recs0, s, g) && AllDone(s) && FindIndex(cfg.descs, cfg.id).None?
    ensures forall t :: 0 <= t < |s.tasks| ==>
              s.tasks[t].pc == Finished && s.tasks[t].cache == [] && s.tasks[t].handled == 0
  {
    hide HeapPart, LocksOk, NodesOk, MemoryPart, LogOk, ResultsOk, PhaseOk, Block;
  }
}
