/** Steps that take or give back a mutex, or move through the allocator. */
module TaskletLocks {
  import opened Util
  import opened Entries
  import opened Tasklets
  import opened TaskletInvariant
  import opened TaskletFrames
  import opened TaskletSteps

  /** TaskOk after a move that only changes the program counter. */
  lemma TaskMoved(cfg: Config, recs0: seq<seq<Rec>>, s: State, g: Ghost, t: nat, pc: Pc)
    requires Inv(cfg, recs0, s, g) && t < |s.tasks| && Working(s.tasks[t].pc) && Working(pc)
    requires var b := CurBucket(cfg, |s.tasks|, t, s.tasks[t]);
             b < |g.view.chains| && b < |g.view.recs|
             && PcOk(cfg.op, g.vmem, g.view.chains[b], g.view.recs[b], CurItem(cfg, |s.tasks|, t, s.tasks[t]).key, pc)
    ensures TaskOk(cfg, g.vmem, g.view, |s.tasks|, t, s.tasks[t].(pc := pc))
  {
    hide HeapPart, LocksOk, NodesOk, MemoryPart, LogOk, ResultsOk, PhaseOk, PcOk;
    assert TaskOk(cfg, g.vmem, g.view, |s.tasks|, t, s.tasks[t]);
  }

  // --- Bucket mutex -------------------------------------------------------------------------

  lemma TakeBucket(cfg: Config, s: State, s': State, t: nat, k: Task, k': Task)
    requires ConfigOk(cfg) && Moved(s, s', t, k, k') && BucketLocksOk(cfg, s)
    requires !HoldsBucket(k.pc) && HoldsBucket(k'.pc) && k'.handled == k.handled
    requires CurMutex(cfg, |s.tasks|, t, k) !in s.locks && s'.locks == s.locks[CurMutex(cfg, |s.tasks|, t, k) := t]
    ensures BucketLocksOk(cfg, s')
  {
    hide HoldsBucket, Block, LocalBucket, BucketOf;
    assert CurMutex(cfg, |s.tasks|, t, k') == CurMutex(cfg, |s.tasks|, t, k);
  }

  lemma GiveBucket(cfg: Config, s: State, s': State, t: nat, k: Task, k': Task)
    requires ConfigOk(cfg) && Moved(s, s', t, k, k') && BucketLocksOk(cfg, s)
    requires HoldsBucket(k.pc) && !HoldsBucket(k'.pc)
    requires s'.locks == s.locks - {CurMutex(cfg, |s.tasks|, t, k)}
    ensures BucketLocksOk(cfg, s')
  {
    hide HoldsBucket, Block, LocalBucket, BucketOf;
  }

  lemma AcquireStep(cfg: Config, recs0: seq<seq<Rec>>, s: State, g: Ghost, t: nat, s': State)
    requires Inv(cfg, recs0, s, g) && t < |s.tasks| && s.tasks[t].pc.Acquire?
    requires TaskNext(cfg, s, t) == Some(s')
    ensures Inv(cfg, recs0, s', g)
  {
    hide HeapPart, TasksOk, BucketLocksOk, AllocLockOk, ResLockOk, NodesOk, MemoryPart, LogOk, ResultsOk, PhaseOk,
         TaskNext, TaskOk;
    WorkContext(cfg, recs0, s, g, t);
    var k, m := s.tasks[t], CurMutex(cfg, |s.tasks|, t, s.tasks[t]);
    assert m !in s.locks && s' == Move(s.(locks := s.locks[m := t]), t, Locked);
    hide OpNext;
    var k' := k.(pc := Locked);
    TaskMoved(cfg, recs0, s, g, t, Locked);
    KeepTasks(cfg, s, s', g, g, t, k, k');
    TakeBucket(cfg, s, s', t, k, k');
    KeepAllocLock(s, s', t, k, k');
    KeepResLock(s, s', t, k, k');
    KeepNodes(cfg, s, s', g, g, t, k, k');
    KeepMemory(cfg, s, s', g, g, t, k, k');
    KeepLog(cfg, recs0, s, s', g, g, t, k, k');
    KeepResults(cfg, recs0, s, s', g, g, t, k, k');
    KeepPhase(cfg, s, s', t, k, k');
  }

  /** What a release does, and what the tasklet knows afterwards. */
  lemma ReleaseShape(cfg: Config, recs0: seq<seq<Rec>>, s: State, g: Ghost, t: nat, s': State) returns (k': Task)
    requires Inv(cfg, recs0, s, g) && t < |s.tasks| && s.tasks[t].pc.Release?
    requires TaskNext(cfg, s, t) == Some(s')
    ensures k' == s.tasks[t].(pc := k'.pc) && if cfg.op == LookupOp then k'.pc.Fetch? else k'.pc.Next?
    ensures s' == s.(locks := s.locks - {CurMutex(cfg, |s.tasks|, t, s.tasks[t])}, tasks := s.tasks[t := k'])
    ensures TaskOk(cfg, g.vmem, g.view, |s.tasks|, t, k')
  {
    hide HeapPart, LocksOk, NodesOk, MemoryPart, LogOk, ResultsOk, PhaseOk, TaskNext, Block, CurMutex, BucketOf;
    WorkContext(cfg, recs0, s, g, t);
    k' := s.tasks[t].(pc := if cfg.op == LookupOp then Fetch(s.tasks[t].pc.res) else Next);
    assert TaskOk(cfg, g.vmem, g.view, |s.tasks|, t, s.tasks[t]);
  }

  lemma ReleaseStep(cfg: Config, recs0: seq<seq<Rec>>, s: State, g: Ghost, t: nat, s': State)
    requires Inv(cfg, recs0, s, g) && t < |s.tasks| && s.tasks[t].pc.Release?
    requires TaskNext(cfg, s, t) == Some(s')
    ensures Inv(cfg, recs0, s', g)
  {
    hide HeapPart, TasksOk, BucketLocksOk, AllocLockOk, ResLockOk, NodesOk, MemoryPart, LogOk, ResultsOk, PhaseOk,
         TaskNext, TaskOk, CurMutex;
    var k' := ReleaseShape(cfg, recs0, s, g, t, s');
    var k := s.tasks[t];
    KeepTasks(cfg, s, s', g, g, t, k, k');
    GiveBucket(cfg, s, s', t, k, k');
    KeepAllocLock(s, s', t, k, k');
    KeepResLock(s, s', t, k, k');
    KeepNodes(cfg, s, s', g, g, t, k, k');
    KeepMemory(cfg, s, s', g, g, t, k, k');
    KeepLog(cfg, recs0, s, s', g, g, t, k, k');
    KeepResults(cfg, recs0, s, s', g, g, t, k, k');
    KeepPhase(cfg, s, s', t, k, k');
  }

  // --- Allocator ----------------------------------------------------------------------------

  lemma TakeAlloc(s: State, s': State, t: nat, k: Task, k': Task)
    requires Moved(s, s', t, k, k') && AllocLockOk(s) && s.allocLock.None? && s'.allocLock == Some(t)
             && HoldsAlloc(k'.pc)
    ensures AllocLockOk(s')
  {
    hide HoldsAlloc;
  }

  lemma GiveAlloc(s: State, s': State, t: nat, k: Task, k': Task)
    requires Moved(s, s', t, k, k') && AllocLockOk(s) && HoldsAlloc(k.pc) && s'.allocLock.None? && !HoldsAlloc(k'.pc)
    ensures AllocLockOk(s') && s.allocLock == Some(t)
  {
    hide HoldsAlloc;
  }

  /** The allocator step of an insert: mutex, space, node. Everything else is untouched. */
  lemma AllocatorMove(cfg: Config, recs0: seq<seq<Rec>>, s: State, g: Ghost, t: nat, pc: Pc, s': State)
    requires Inv(cfg, recs0, s, g) && t < |s.tasks|
    requires HoldsBucket(s.tasks[t].pc) && HoldsBucket(pc) && !s.tasks[t].pc.InsFill? && !pc.InsFill?
    requires !pc.Release? && !s.tasks[t].pc.Release?
    requires s' == Move(s.(allocLock := s'.allocLock, cur := s'.cur, avail := s'.avail), t, pc)
    requires var b := CurBucket(cfg, |s.tasks|, t, s.tasks[t]);
             b < |g.view.chains| && b < |g.view.recs|
             && PcOk(cfg.op, g.vmem, g.view.chains[b], g.view.recs[b], CurItem(cfg, |s.tasks|, t, s.tasks[t]).key, pc)
    requires NodesOk(cfg, s', g) && AllocLockOk(s')
    ensures Inv(cfg, recs0, s', g)
  {
    hide HeapPart, TasksOk, BucketLocksOk, AllocLockOk, ResLockOk, NodesOk, MemoryPart, LogOk, ResultsOk, PhaseOk,
         TaskOk, PcOk;
    var k := s.tasks[t];
    var k' := k.(pc := pc);
    TaskMoved(cfg, recs0, s, g, t, pc);
    KeepTasks(cfg, s, s', g, g, t, k, k');
    KeepBucketLocks(cfg, s, s', t, k, k');
    KeepResLock(s, s', t, k, k');
    KeepMemory(cfg, s, s', g, g, t, k, k');
    KeepLog(cfg, recs0, s, s', g, g, t, k, k');
    KeepResults(cfg, recs0, s, s', g, g, t, k, k');
    KeepPhase(cfg, s, s', t, k, k');
  }

  lemma AllocLockStep(cfg: Config, recs0: seq<seq<Rec>>, s: State, g: Ghost, t: nat, s': State)
    requires Inv(cfg, recs0, s, g) && t < |s.tasks| && s.tasks[t].pc.InsRead? && s.tasks[t].pc.buf.keyLen != 0
    requires TaskNext(cfg, s, t) == Some(s')
    ensures Inv(cfg, recs0, s', g)
  {
    hide HeapPart, TasksOk, BucketLocksOk, AllocLockOk, ResLockOk, NodesOk, MemoryPart, LogOk, ResultsOk, PhaseOk,
         TaskNext, TaskOk;
    WorkContext(cfg, recs0, s, g, t);
    var k := s.tasks[t];
    var pc := InsAllocHeld(k.pc.buf);
    assert s.allocLock.None? && s' == Move(s.(allocLock := Some(t)), t, pc);
    hide OpNext;
    TakeAlloc(s, s', t, k, k.(pc := pc));
    KeepNodes(cfg, s, s', g, g, t, k, k.(pc := pc));
    AllocatorMove(cfg, recs0, s, g, t, pc, s');
  }

  /** Space is left for every node a tasklet may still ask for. */
  lemma SpaceLeft(cfg: Config, recs0: seq<seq<Rec>>, s: State, g: Ghost, t: nat)
    requires Inv(cfg, recs0, s, g) && t < |s.tasks| && cfg.op == InsertOp
    requires s.tasks[t].pc.InsAllocHeld? || s.tasks[t].pc.InsAllocCur?
    ensures s.avail >= ENTRY_SIZE && s.allocLock == Some(t)
  {
    hide HeapPart, BucketLocksOk, ResLockOk, MemoryPart, LogOk, ResultsOk, PhaseOk, PcOk, Block;
    forall u | 0 <= u < |s.tasks| ensures Demand(cfg, |s.tasks|, u, s.tasks[u]) >= 0 {
      assert TaskOk(cfg, g.vmem, g.view, |s.tasks|, u, s.tasks[u]);
    }
    assert TaskOk(cfg, g.vmem, g.view, |s.tasks|, t, s.tasks[t]);
    DemandPositive(cfg, s.tasks, |s.tasks|, t);
  }

  lemma AllocCheckStep(cfg: Config, recs0: seq<seq<Rec>>, s: State, g: Ghost, t: nat, s': State)
    requires Inv(cfg, recs0, s, g) && t < |s.tasks| && s.tasks[t].pc.InsAllocHeld?
    requires TaskNext(cfg, s, t) == Some(s')
    ensures Inv(cfg, recs0, s', g)
  {
    hide HeapPart, TasksOk, BucketLocksOk, AllocLockOk, ResLockOk, NodesOk, MemoryPart, LogOk, ResultsOk, PhaseOk,
         TaskNext, TaskOk;
    WorkContext(cfg, recs0, s, g, t);
    SpaceLeft(cfg, recs0, s, g, t);
    var k := s.tasks[t];
    var pc := InsAllocCur(k.pc.buf, s.cur);
    assert s' == Move(s, t, pc);
    hide OpNext;
    KeepAllocLock(s, s', t, k, k.(pc := pc));
    NodesAtCur(cfg, s, s', g, t, k, k.(pc := pc));
    AllocatorMove(cfg, recs0, s, g, t, pc, s');
  }

  lemma NodesAtCur(cfg: Config, s: State, s': State, g: Ghost, t: nat, k: Task, k': Task)
    requires Moved(s, s', t, k, k') && NodesOk(cfg, s, g) && s' == s.(tasks := s'.tasks)
    requires k.pc.InsAllocHeld? && k'.pc.InsAllocCur? && k'.pc.node == s.cur && k'.handled == k.handled
             && s.allocLock == Some(t)
    ensures NodesOk(cfg, s', g)
  {
    DemandUpdate(cfg, s.tasks, t, k', |s.tasks|);
  }

  lemma AllocAdvanceStep(cfg: Config, recs0: seq<seq<Rec>>, s: State, g: Ghost, t: nat, s': State)
    requires Inv(cfg, recs0, s, g) && t < |s.tasks| && s.tasks[t].pc.InsAllocCur?
    requires TaskNext(cfg, s, t) == Some(s')
    ensures Inv(cfg, recs0, s', g)
  {
    hide HeapPart, TasksOk, BucketLocksOk, AllocLockOk, ResLockOk, NodesOk, MemoryPart, LogOk, ResultsOk, PhaseOk,
         TaskNext, TaskOk;
    WorkContext(cfg, recs0, s, g, t);
    SpaceLeft(cfg, recs0, s, g, t);
    var k := s.tasks[t];
    var pc := InsAllocAvail(k.pc.buf, k.pc.node);
    assert s' == Move(s.(cur := s.cur + ENTRY_SIZE), t, pc);
    hide OpNext;
    KeepAllocLock(s, s', t, k, k.(pc := pc));
    NodesAdvance(cfg, s, s', g, t, k, k.(pc := pc));
    AllocatorMove(cfg, recs0, s, g, t, pc, s');
  }

  lemma NodesAdvance(cfg: Config, s: State, s': State, g: Ghost, t: nat, k: Task, k': Task)
    requires Moved(s, s', t, k, k') && NodesOk(cfg, s, g) && AllocLockOk(s) && s.allocLock == Some(t)
    requires s' == s.(tasks := s'.tasks, cur := s.cur + ENTRY_SIZE)
    requires k.pc.InsAllocCur? && k' == k.(pc := InsAllocAvail(k.pc.buf, k.pc.node))
    ensures NodesOk(cfg, s', g)
  {
    hide RealAvail, TotalDemand, Apart;
    AvailAdvance(cfg, s, s', t, k, k');
    OneAllocator(s, t);
    hide HoldsAlloc;
    forall u, a | 0 <= u < |s'.tasks| && HasNode(s'.tasks[u].pc) && a in g.vmem ensures Apart(s'.tasks[u].pc.node, a) {
      if u == t { NotBelow(a, s.cur); }
    }
    forall u, w | 0 <= u < |s'.tasks| && 0 <= w < |s'.tasks| && u != w && HasNode(s'.tasks[u].pc)
           && HasNode(s'.tasks[w].pc)
      ensures Apart(s'.tasks[u].pc.node, s'.tasks[w].pc.node)
    {
      if u == t { NotBelow(s.tasks[w].pc.node, s.cur); }
      if w == t { NotBelow(s.tasks[u].pc.node, s.cur); }
    }
  }

  lemma NotBelow(a: Addr, cur: Addr)
    requires a + ENTRY_SIZE <= cur
    ensures Apart(a, cur) && Apart(cur, a)
  {
  }

  lemma AvailAdvance(cfg: Config, s: State, s': State, t: nat, k: Task, k': Task)
    requires Moved(s, s', t, k, k') && AllocLockOk(s) && s.allocLock == Some(t)
    requires s' == s.(tasks := s'.tasks, cur := s.cur + ENTRY_SIZE)
    requires k.pc.InsAllocCur? && k' == k.(pc := InsAllocAvail(k.pc.buf, k.pc.node))
    ensures RealAvail(s') == RealAvail(s) - ENTRY_SIZE
    ensures TotalDemand(cfg, s'.tasks, |s'.tasks|) == TotalDemand(cfg, s.tasks, |s.tasks|) - 1
  {
    hide Slice;
    DemandUpdate(cfg, s.tasks, t, k', |s.tasks|);
  }

  lemma OneAllocator(s: State, t: nat)
    requires AllocLockOk(s) && s.allocLock == Some(t)
    ensures forall u :: 0 <= u < |s.tasks| && u != t ==> !HoldsAlloc(s.tasks[u].pc)
  {
  }

  lemma AllocBookStep(cfg: Config, recs0: seq<seq<Rec>>, s: State, g: Ghost, t: nat, s': State)
    requires Inv(cfg, recs0, s, g) && t < |s.tasks| && s.tasks[t].pc.InsAllocAvail?
    requires TaskNext(cfg, s, t) == Some(s')
    ensures Inv(cfg, recs0, s', g)
  {
    hide HeapPart, TasksOk, BucketLocksOk, AllocLockOk, ResLockOk, NodesOk, MemoryPart, LogOk, ResultsOk, PhaseOk,
         TaskNext, TaskOk;
    WorkContext(cfg, recs0, s, g, t);
    var k := s.tasks[t];
    var pc := InsAllocDone(k.pc.buf, k.pc.node);
    assert s' == Move(s.(avail := s.avail - ENTRY_SIZE), t, pc);
    hide OpNext;
    KeepAllocLock(s, s', t, k, k.(pc := pc));
    NodesBook(cfg, s, s', g, t, k, k.(pc := pc));
    AllocatorMove(cfg, recs0, s, g, t, pc, s');
  }

  lemma NodesBook(cfg: Config, s: State, s': State, g: Ghost, t: nat, k: Task, k': Task)
    requires Moved(s, s', t, k, k') && NodesOk(cfg, s, g) && AllocLockOk(s) && s.avail >= ENTRY_SIZE
    requires s' == s.(tasks := s'.tasks, avail := s.avail - ENTRY_SIZE)
    requires k.pc.InsAllocAvail? && k' == k.(pc := InsAllocDone(k.pc.buf, k.pc.node))
    ensures NodesOk(cfg, s', g)
  {
    DemandUpdate(cfg, s.tasks, t, k', |s.tasks|);
    assert HoldsAlloc(s.tasks[t].pc);
  }

  lemma AllocUnlockStep(cfg: Config, recs0: seq<seq<Rec>>, s: State, g: Ghost, t: nat, s': State)
    requires Inv(cfg, recs0, s, g) && t < |s.tasks| && s.tasks[t].pc.InsAllocDone?
    requires TaskNext(cfg, s, t) == Some(s')
    ensures Inv(cfg, recs0, s', g)
  {
    hide HeapPart, TasksOk, BucketLocksOk, AllocLockOk, ResLockOk, NodesOk, MemoryPart, LogOk, ResultsOk, PhaseOk,
         TaskNext, TaskOk;
    WorkContext(cfg, recs0, s, g, t);
    var k := s.tasks[t];
    var pc := InsLink(k.pc.buf, k.pc.node);
    assert s' == Move(s.(allocLock := None), t, pc);
    hide OpNext;
    GiveAlloc(s, s', t, k, k.(pc := pc));
    KeepNodes(cfg, s, s', g, g, t, k, k.(pc := pc));
    AllocatorMove(cfg, recs0, s, g, t, pc, s');
  }
}
