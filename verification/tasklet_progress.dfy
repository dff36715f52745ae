/** What every state of every run of a launch guarantees: well-formed unlocked buckets, separated phases, and
    no deadlock. */
module TaskletProgress {
  import opened Util
  import opened Entries
  import opened ChainHeap
  import opened PrimaryIndex
  import opened Interleavings
  import opened Tasklets
  import opened TaskletInvariant
  import opened TaskletFrames
  import opened TaskletSteps
  import opened TaskletResults
  import opened TaskletTheorems

  /** The four places a slave can wait at, besides having finished. */
  predicate Waits(cfg: Config, s: State, pc: Pc) {
    match pc
    case AtBarrier1 => !AllArrived1(s)
    case AtBarrier2 => !AllArrived2(s)
    case Acquire => true
    case InsRead(buf) => buf.keyLen != 0 && s.allocLock.Some?
    case WantFlush => s.resLock.Some?
    case Finished => true
    case _ => false
  }

  lemma InsertCanStep(cfg: Config, recs0: seq<seq<Rec>>, s: State, g: Ghost, t: nat)
    requires Inv(cfg, recs0, s, g) && t < |s.tasks| && HoldsBucket(s.tasks[t].pc)
    requires !Waits(cfg, s, s.tasks[t].pc)
    requires !s.tasks[t].pc.DelRead? && !s.tasks[t].pc.DelScan? && !s.tasks[t].pc.FindScan? && !s.tasks[t].pc.Fetch?
    ensures TaskNext(cfg, s, t).Some?
  {
    hide HeapPart, TasksOk, BucketLocksOk, AllocLockOk, ResLockOk, NodesOk, MemoryPart, LogOk, ResultsOk, PhaseOk,
         TaskNext, TaskOk;
    WorkContext(cfg, recs0, s, g, t);
    if !s.tasks[t].pc.InsFill? { HeadRead(cfg, recs0, s, g, t); }
    if s.tasks[t].pc.InsAllocAvail? { SpaceBooked(cfg, recs0, s, g, t); }
  }

  /** The allocation in progress has its space. */
  lemma SpaceBooked(cfg: Config, recs0: seq<seq<Rec>>, s: State, g: Ghost, t: nat)
    requires Inv(cfg, recs0, s, g) && t < |s.tasks| && s.tasks[t].pc.InsAllocAvail?
    ensures s.avail >= ENTRY_SIZE
  {
    hide HeapPart, MemoryPart, LogOk, ResultsOk, PhaseOk, BucketLocksOk, ResLockOk, Block;
    forall u | 0 <= u < |s.tasks| ensures Demand(cfg, |s.tasks|, u, s.tasks[u]) >= 0 {
      assert TaskOk(cfg, g.vmem, g.view, |s.tasks|, u, s.tasks[u]);
    }
    assert TaskOk(cfg, g.vmem, g.view, |s.tasks|, t, s.tasks[t]);
    DemandNonNegative(cfg, s.tasks, |s.tasks|);
    assert s.allocLock == Some(t);
  }

  lemma DeleteCanStep(cfg: Config, recs0: seq<seq<Rec>>, s: State, g: Ghost, t: nat)
    requires Inv(cfg, recs0, s, g) && t < |s.tasks| && (s.tasks[t].pc.DelRead? || s.tasks[t].pc.DelScan?)
    ensures TaskNext(cfg, s, t).Some?
  {
    hide HeapPart, TasksOk, BucketLocksOk, AllocLockOk, ResLockOk, NodesOk, MemoryPart, LogOk, ResultsOk, PhaseOk,
         TaskNext, TaskOk;
    WorkContext(cfg, recs0, s, g, t);
    HeadRead(cfg, recs0, s, g, t);
    var b := CurBucket(cfg, |s.tasks|, t, s.tasks[t]);
    var ps, c, key, pc := g.view.chains[b], g.view.recs[b], CurItem(cfg, |s.tasks|, t, s.tasks[t]).key, s.tasks[t].pc;
    var i: nat := 0;
    if pc.DelScan? {
      var j: nat :| ScanAt(g.vmem, ps, c, key, j, pc.lastPtr, pc.last, pc.buf);
      i := j;
    }
    NodeLink(g.vmem, ps, c, i);
    if pc.buf.next != NULL { CleanRead(cfg, s, g, t, i + 1); }
  }

  lemma FindCanStep(cfg: Config, recs0: seq<seq<Rec>>, s: State, g: Ghost, t: nat)
    requires Inv(cfg, recs0, s, g) && t < |s.tasks| && s.tasks[t].pc.FindScan?
    ensures TaskNext(cfg, s, t).Some?
  {
    hide HeapPart, TasksOk, BucketLocksOk, AllocLockOk, ResLockOk, NodesOk, MemoryPart, LogOk, ResultsOk, PhaseOk,
         TaskNext, TaskOk;
    WorkContext(cfg, recs0, s, g, t);
    HeadRead(cfg, recs0, s, g, t);
    var b := CurBucket(cfg, |s.tasks|, t, s.tasks[t]);
    var ps, c, key, pc := g.view.chains[b], g.view.recs[b], CurItem(cfg, |s.tasks|, t, s.tasks[t]).key, s.tasks[t].pc;
    var i: nat :| FindAt(g.vmem, ps, c, key, i, pc.found, pc.buf);
    NodeLink(g.vmem, ps, c, i);
    if pc.buf.next != NULL { CleanRead(cfg, s, g, t, i + 1); }
  }

  lemma FetchCanStep(cfg: Config, recs0: seq<seq<Rec>>, s: State, g: Ghost, t: nat)
    requires Inv(cfg, recs0, s, g) && t < |s.tasks| && s.tasks[t].pc.Fetch?
    ensures TaskNext(cfg, s, t).Some?
  {
    hide HeapPart, TasksOk, BucketLocksOk, AllocLockOk, ResLockOk, NodesOk, LogOk, ResultsOk, PhaseOk, TaskNext, TaskOk;
    WorkContext(cfg, recs0, s, g, t);
  }

  lemma FlushCanStep(cfg: Config, recs0: seq<seq<Rec>>, s: State, g: Ghost, t: nat)
    requires Inv(cfg, recs0, s, g) && t < |s.tasks| && HoldsResults(s.tasks[t].pc)
    ensures TaskNext(cfg, s, t).Some?
  {
    hide HeapPart, BucketLocksOk, AllocLockOk, ResLockOk, NodesOk, MemoryPart, LogOk, AnsweredOk, Block, OpNext;
    TaskAt(cfg, s, g, t);
    assert AllArrived1(s);
  }

  /** A slave that is not waiting can take its step. */
  lemma CanStep(cfg: Config, recs0: seq<seq<Rec>>, s: State, g: Ghost, t: nat)
    requires Inv(cfg, recs0, s, g) && t < |s.tasks| && !Waits(cfg, s, s.tasks[t].pc)
    ensures TaskNext(cfg, s, t).Some?
  {
    hide Inv, AllArrived1, AllArrived2, OpNext, Block;
    var pc := s.tasks[t].pc;
    if pc.DelRead? || pc.DelScan? {
      DeleteCanStep(cfg, recs0, s, g, t);
    } else if pc.FindScan? {
      FindCanStep(cfg, recs0, s, g, t);
    } else if pc.Fetch? {
      FetchCanStep(cfg, recs0, s, g, t);
    } else if HoldsResults(pc) {
      FlushCanStep(cfg, recs0, s, g, t);
    } else if HoldsBucket(pc) {
      InsertCanStep(cfg, recs0, s, g, t);
    }
  }

  /** A slave waiting for a free bucket mutex can take it. */
  lemma AcquireCanStep(cfg: Config, recs0: seq<seq<Rec>>, s: State, g: Ghost, t: nat)
    requires Inv(cfg, recs0, s, g) && t < |s.tasks| && s.tasks[t].pc.Acquire? && s.locks == map[]
    ensures TaskNext(cfg, s, t).Some?
  {
    hide HeapPart, TasksOk, BucketLocksOk, AllocLockOk, ResLockOk, NodesOk, MemoryPart, LogOk, ResultsOk, PhaseOk,
         TaskNext, TaskOk;
    WorkContext(cfg, recs0, s, g, t);
  }

  /** With every slave at a mutex, at barrier2 or finished, nobody holds a mutex. */
  lemma NobodyHolds(cfg: Config, s: State)
    requires ConfigOk(cfg) && BucketLocksOk(cfg, s)
    requires forall t :: 0 <= t < |s.tasks| ==> s.tasks[t].pc.Acquire? || AfterWork(s.tasks[t].pc)
    ensures s.locks == map[]
  {
    hide CurMutex;
  }

  /** The allocator mutex never nests the other way round: its holder, and the holder of the result mutex,
      waits for nobody. */
  lemma LockHolderCanStep(cfg: Config, recs0: seq<seq<Rec>>, s: State, g: Ghost) returns (t: nat)
    requires Inv(cfg, recs0, s, g) && (s.allocLock.Some? || s.resLock.Some?)
    ensures t < |s.tasks| && TaskNext(cfg, s, t).Some?
  {
    hide HeapPart, TasksOk, BucketLocksOk, NodesOk, MemoryPart, LogOk, ResultsOk, PhaseOk, TaskNext;
    t := if s.allocLock.Some? then s.allocLock.value else s.resLock.value;
    assert HoldsAlloc(s.tasks[t].pc) || HoldsResults(s.tasks[t].pc);
    CanStep(cfg, recs0, s, g, t);
  }

  /** Some slave is not waiting, or all are at the mutexes and barriers with no mutex held. */
  lemma SlaveCanStep(cfg: Config, recs0: seq<seq<Rec>>, s: State, g: Ghost, t: nat) returns (u: nat)
    requires Inv(cfg, recs0, s, g) && s.master != MPrepare && t < |s.tasks|
    requires !AfterWork(s.tasks[t].pc) && (forall u :: 0 <= u < |s.tasks| ==> !s.tasks[u].pc.AtStart?)
    ensures u < |s.tasks| && TaskNext(cfg, s, u).Some?
  {
    hide HeapPart, TasksOk, BucketLocksOk, AllocLockOk, ResLockOk, NodesOk, MemoryPart, LogOk, ResultsOk, PhaseOk,
         TaskNext;
    if s.allocLock.Some? || s.resLock.Some? {
      u := LockHolderCanStep(cfg, recs0, s, g);
    } else if v: nat :| v < |s.tasks| && !s.tasks[v].pc.Acquire? && !AfterWork(s.tasks[v].pc) {
      u := v;
      CanStep(cfg, recs0, s, g, u);
    } else {
      u := t;
      NobodyHolds(cfg, s);
      AcquireCanStep(cfg, recs0, s, g, u);
    }
  }

  /** No deadlock: in every reachable state either everything is done or some tasklet can take a step. */
  lemma Progress(cfg: Config, recs0: seq<seq<Rec>>, s: State, g: Ghost) returns (who: nat)
    requires Inv(cfg, recs0, s, g) && !AllDone(s)
    ensures who <= |s.tasks| && Step(cfg, s, who).Some?
  {
    hide Inv, TaskNext;
    if s.master == MPrepare || s.master == MRun || s.master == MMerge {
      who := 0;
    } else if t: nat :| t < |s.tasks| && s.tasks[t].pc.AtStart? {
      CanStep(cfg, recs0, s, g, t);
      who := t + 1;
    } else if t: nat :| t < |s.tasks| && !AfterWork(s.tasks[t].pc) {
      var u := SlaveCanStep(cfg, recs0, s, g, t);
      who := u + 1;
    } else if s.master == MDone {
      var t: nat :| t < |s.tasks| && s.tasks[t].pc != Finished;
      CanStep(cfg, recs0, s, g, t);
      who := t + 1;
    } else {
      who := 0;
    }
  }

  // --- Every state of every run -------------------------------------------------------------

  /** No run from a launch state reaches a state where tasklets remain and none can take a step. */
  lemma NoDeadlock(cfg: Config, run: seq<State>, who: seq<nat>, view: View, n: nat)
    requires IsRun(cfg, run, who) && Ready(cfg, run[0], view) && n < |run| && !AllDone(run[n])
    ensures exists t: nat :: t <= |run[n].tasks| && Step(cfg, run[n], t).Some?
  {
    hide Inv, Step, Ready, AllDone;
    LaunchInv(cfg, run[0], view);
    var g := RunKeepsInv(cfg, view.recs, run, who, InitialGhost(run[0], view), n);
    var t := Progress(cfg, view.recs, run[n], g);
  }

  /** In every state of every run the bucket whose mutex is free starts a well-formed chain, whose records are
      the initial ones after the elements that took effect so far. These are, for every tasklet, a beginning of
      its slice of the batch. */
  lemma UnlockedChains(cfg: Config, run: seq<State>, who: seq<nat>, view: View, n: nat, b: nat)
    returns (ps: seq<Addr>, log: seq<Ev<Item>>, metas: seq<Metadata>)
    requires IsRun(cfg, run, who) && Ready(cfg, run[0], view) && n < |run|
    requires b < |cfg.heads| && cfg.pool[b % cfg.size] !in run[n].locks
    ensures |metas| == |log| && b < |view.recs|
    ensures ChainOk(run[n].mem, ps, Apply(cfg, view.recs, log, metas)[b]) && ps[0] == cfg.heads[b]
    ensures forall t :: 0 <= t < |run[n].tasks| ==> Proj(log, t) <= Slice(cfg, |run[n].tasks|, t)
  {
    hide Inv, Step, ChainOk, Apply, Slice, Proj, HeapOk, Homed, Launch;
    LaunchInv(cfg, run[0], view);
    HeapSizes(run[0].mem, cfg.heads, view);
    var g := RunKeepsInv(cfg, view.recs, run, who, InitialGhost(run[0], view), n);
    UnlockedIsSettled(cfg, view.recs, run[n], g, b);
    SettledChains(cfg, view.recs, run[n], g, b);
    LoggedPrefixes(cfg, view.recs, run[n], g);
    ps, log, metas := g.view.chains[b], g.log, g.metas;
  }

  lemma LoggedPrefixes(cfg: Config, recs0: seq<seq<Rec>>, s: State, g: Ghost)
    requires Inv(cfg, recs0, s, g)
    ensures |g.metas| == |g.log|
    ensures forall t :: 0 <= t < |s.tasks| ==> Proj(g.log, t) <= Slice(cfg, |s.tasks|, t)
  {
    hide HeapPart, TasksOk, LocksOk, NodesOk, MemoryPart, ResultsOk, PhaseOk, Apply, Slice, Proj;
  }

  /** The two barriers in every run: a slave past the first one works on the index and batch the master has
      prepared, and when the master merges every slave has dealt with its whole slice. */
  lemma PhasesInRuns(cfg: Config, run: seq<State>, who: seq<nat>, view: View, n: nat)
    requires IsRun(cfg, run, who) && Ready(cfg, run[0], view) && n < |run|
    ensures forall t :: 0 <= t < |run[n].tasks| && !BeforeWork(run[n].tasks[t].pc) ==>
              run[n].master != MPrepare && run[n].index == FindIndex(cfg.descs, cfg.id) && run[n].batch == cfg.items
    ensures run[n].master == MMerge || run[n].master == MDone ==>
              forall t :: 0 <= t < |run[n].tasks| ==>
                AfterWork(run[n].tasks[t].pc) && run[n].tasks[t].cache == []
                && run[n].tasks[t].handled == if FindIndex(cfg.descs, cfg.id).Some?
                   then |Slice(cfg, |run[n].tasks|, t)| else 0
  {
    hide Inv, Step, Ready, Slice;
    LaunchInv(cfg, run[0], view);
    var g := RunKeepsInv(cfg, view.recs, run, who, InitialGhost(run[0], view), n);
    BarriersSeparatePhases(cfg, view.recs, run[n], g);
  }

  /** Accounting in every state of every run of a lookup batch: the shared list is what the tasklets have
      flushed, and for each tasklet flushed results plus cached ones answer exactly the elements it has dealt
      with, in order. */
  lemma LookupAccounting(cfg: Config, run: seq<State>, who: seq<nat>, view: View, n: nat)
    returns (flushed: seq<Ev<Res>>)
    requires IsRun(cfg, run, who) && Ready(cfg, run[0], view) && n < |run| && cfg.op == LookupOp
             && run[n].master != MPrepare
    ensures run[n].nnz <= |run[n].data| && run[n].data[..run[n].nnz] == Whats(flushed)
    ensures forall t :: 0 <= t < |run[n].tasks| ==>
              Answered(run[n].tasks[t]) <= |Slice(cfg, |run[n].tasks|, t)|
              && Proj(flushed, t) + Unflushed(run[n].tasks[t]) ==
                 Answers(cfg, view.recs, Slice(cfg, |run[n].tasks|, t)[..Answered(run[n].tasks[t])])
    ensures forall t :: 0 <= t < |run[n].tasks| ==> |run[n].tasks[t].cache| <= 16
  {
    hide Inv, Step, Ready, Slice, Answers, Proj, Answered, Unflushed;
    LaunchInv(cfg, run[0], view);
    var g := RunKeepsInv(cfg, view.recs, run, who, InitialGhost(run[0], view), n);
    flushed := g.rlog;
    Accounts(cfg, view.recs, run[n], g);
  }

  /** A tasklet that has cached an answer goes on to flush exactly when it is the sixteenth. */
  lemma FlushesAtSixteen(cfg: Config, recs0: seq<seq<Rec>>, s: State, g: Ghost, t: nat, s': State)
    requires Inv(cfg, recs0, s, g) && t < |s.tasks| && s.tasks[t].pc.Fetch? && TaskNext(cfg, s, t) == Some(s')
    ensures |s'.tasks| == |s.tasks| && |s'.tasks[t].cache| == |s.tasks[t].cache| + 1
    ensures s'.tasks[t].pc == if |s'.tasks[t].cache| == 16 then WantFlush else Next
  {
    hide HeapPart, LocksOk, NodesOk, MemoryPart, LogOk, ResultsOk, PhaseOk, TaskNext, Block, CurItem, CurMutex,
         BucketOf;
    TaskAt(cfg, s, g, t);
    WorkContext(cfg, recs0, s, g, t);
  }

  lemma CacheSmall(cfg: Config, recs0: seq<seq<Rec>>, s: State, g: Ghost, t: nat)
    requires Inv(cfg, recs0, s, g) && t < |s.tasks|
    ensures |s.tasks[t].cache| <= 16
  {
    hide HeapPart, LocksOk, NodesOk, MemoryPart, LogOk, ResultsOk, PhaseOk, Block, PcOk;
    TaskAt(cfg, s, g, t);
  }

  lemma Accounts(cfg: Config, recs0: seq<seq<Rec>>, s: State, g: Ghost)
    requires Inv(cfg, recs0, s, g) && cfg.op == LookupOp
    ensures SharedOk(s, g.rlog) && AnsweredOk(cfg, recs0, s.tasks, g.rlog)
    ensures forall t :: 0 <= t < |s.tasks| ==> |s.tasks[t].cache| <= 16
  {
    forall t | 0 <= t < |s.tasks| ensures |s.tasks[t].cache| <= 16 { CacheSmall(cfg, recs0, s, g, t); }
    hide HeapPart, TasksOk, LocksOk, NodesOk, MemoryPart, LogOk, PhaseOk, SharedOk, AnsweredOk;
  }
}
