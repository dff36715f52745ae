/** Whole launches: the invariant holds in every reachable state, no state is stuck, and the final
    state is that of a sequential execution. */
module TaskletRuns {
  import opened Util
  import opened Entries
  import opened Tasklets
  import opened TaskletInvariant
  import opened TaskletSteps
  import opened TaskletLocks
  import opened TaskletCommits
  import opened TaskletEffects
  import opened TaskletResults

  // --- One step -----------------------------------------------------------------------------

  lemma MasterStep(cfg: Config, recs0: seq<seq<Rec>>, s: State, g: Ghost, s': State)
    requires Inv(cfg, recs0, s, g) && MasterNext(cfg, s) == Some(s')
    ensures Inv(cfg, recs0, s', g)
  {
    hide HeapPart, TasksOk, LocksOk, NodesOk, MemoryPart, LogOk, ResultsOk, PhaseOk;
    assert s'.tasks == s.tasks && s'.mem == s.mem && s'.locks == s.locks;
    assert s'.cur == s.cur && s'.avail == s.avail && s'.allocLock == s.allocLock && s'.resLock == s.resLock;
    MasterTasks(cfg, s, s', g);
    MasterLocks(cfg, s, s');
    MasterNodes(cfg, s, s', g);
    MasterMemory(cfg, s, s', g);
    MasterPhase(cfg, s, s');
    MasterResults(cfg, recs0, s, g, s');
  }

  lemma MasterTasks(cfg: Config, s: State, s': State, g: Ghost)
    requires cfg.size > 0 && TasksOk(cfg, s, g) && s'.tasks == s.tasks
    ensures TasksOk(cfg, s', g)
  {
    hide TaskOk;
  }

  lemma MasterLocks(cfg: Config, s: State, s': State)
    requires ConfigOk(cfg) && LocksOk(cfg, s)
    requires s'.tasks == s.tasks && s'.locks == s.locks && s'.allocLock == s.allocLock && s'.resLock == s.resLock
    ensures LocksOk(cfg, s')
  {
    hide CurMutex, HoldsBucket, HoldsAlloc, HoldsResults;
  }

  lemma MasterNodes(cfg: Config, s: State, s': State, g: Ghost)
    requires NodesOk(cfg, s, g) && s'.tasks == s.tasks && s'.cur == s.cur && s'.avail == s.avail
             && s'.allocLock == s.allocLock
    ensures NodesOk(cfg, s', g)
  {
    hide TotalDemand;
  }

  lemma MasterMemory(cfg: Config, s: State, s': State, g: Ghost)
    requires cfg.size > 0 && MemoryPart(cfg, s, g) && s'.tasks == s.tasks && s'.mem == s.mem
    ensures MemoryPart(cfg, s', g)
  {
    hide CurBucket;
  }

  lemma MasterPhase(cfg: Config, s: State, s': State)
    requires PhaseOk(cfg, s) && MasterNext(cfg, s) == Some(s')
    ensures PhaseOk(cfg, s')
  {
    if s.master == MPrepare {
      assert !AllArrived1(s) && !AllArrived2(s);
    } else {
      assert AllArrived1(s) ==> AllArrived1(s');
      assert AllArrived2(s) ==> AllArrived2(s');
    }
  }

  lemma MasterResults(cfg: Config, recs0: seq<seq<Rec>>, s: State, g: Ghost, s': State)
    requires cfg.size > 0 && ResultsOk(cfg, recs0, s, g) && PhaseOk(cfg, s) && MasterNext(cfg, s) == Some(s')
    ensures ResultsOk(cfg, recs0, s', g)
  {
    hide AnsweredOk;
    if s.master == MPrepare {
      assert !AllArrived1(s);
      forall t | 0 <= t < |s.tasks| ensures !s.tasks[t].pc.FlushWritten? {
        assert BeforeWork(s.tasks[t].pc);
      }
      assert s'.data[..0] == [];
    }
  }

  /** Any step of any tasklet keeps the invariant. */
  lemma StepKeepsInv(cfg: Config, recs0: seq<seq<Rec>>, s: State, g: Ghost, who: nat, s': State) returns (g': Ghost)
    requires Inv(cfg, recs0, s, g) && Step(cfg, s, who) == Some(s')
    ensures Inv(cfg, recs0, s', g')
  {
    hide Inv, MasterNext;
    if who == 0 {
      MasterStep(cfg, recs0, s, g, s');
      g' := g;
    } else {
      hide TaskNext;
      g' := TaskStepKeepsInv(cfg, recs0, s, g, who - 1, s');
    }
  }

  lemma TaskStepKeepsInv(cfg: Config, recs0: seq<seq<Rec>>, s: State, g: Ghost, t: nat, s': State) returns (g': Ghost)
    requires Inv(cfg, recs0, s, g) && t < |s.tasks| && TaskNext(cfg, s, t) == Some(s')
    ensures Inv(cfg, recs0, s', g')
  {
    hide Inv;
    assert |s'.tasks| == |s.tasks| && (ReadsOn(s.tasks[t].pc) ==> !s'.tasks[t].pc.Release?);
    hide TaskNext;
    g' := g;
    match s.tasks[t].pc
    case AtStart => StartStep(cfg, recs0, s, g, t, s');
    case AtBarrier1 => LeaveBarrier1Step(cfg, recs0, s, g, t, s');
    case Next => NextStep(cfg, recs0, s, g, t, s');
    case Acquire => AcquireStep(cfg, recs0, s, g, t, s');
    case Locked => ReadHeadStep(cfg, recs0, s, g, t, s');
    case InsRead(buf) =>
      if buf.keyLen == 0 {
        g' := InsertHeadStep(cfg, recs0, s, g, t, s');
      } else {
        AllocLockStep(cfg, recs0, s, g, t, s');
      }
    case InsAllocHeld(_) => AllocCheckStep(cfg, recs0, s, g, t, s');
    case InsAllocCur(_, _) => AllocAdvanceStep(cfg, recs0, s, g, t, s');
    case InsAllocAvail(_, _) => AllocBookStep(cfg, recs0, s, g, t, s');
    case InsAllocDone(_, _) => AllocUnlockStep(cfg, recs0, s, g, t, s');
    case InsLink(_, _) => g' := LinkStep(cfg, recs0, s, g, t, s');
    case InsFill(_, _) => g' := InsertNodeStep(cfg, recs0, s, g, t, s');
    case DelRead(buf) =>
      if buf.next == NULL {
        g' := DeleteHeadStep(cfg, recs0, s, g, t, s');
      } else {
        DeleteReadStep(cfg, recs0, s, g, t, s');
      }
    case DelCopy(_) => g' := DeleteCopyStep(cfg, recs0, s, g, t, s');
    case DelScan(_, _, _) =>
      if s'.tasks[t].pc.Release? {
        g' := DeleteSpliceStep(cfg, recs0, s, g, t, s');
      } else {
        DeleteScanStep(cfg, recs0, s, g, t, s');
      }
    case FindScan(_, _) => FindStep(cfg, recs0, s, g, t, s');
    case Release(_) => ReleaseStep(cfg, recs0, s, g, t, s');
    case Fetch(_) => FetchStep(cfg, recs0, s, g, t, s');
    case WantFlush => FlushLockStep(cfg, recs0, s, g, t, s');
    case FlushHeld => FlushWriteStep(cfg, recs0, s, g, t, s');
    case FlushWritten => g' := FlushCountStep(cfg, recs0, s, g, t, s');
    case FlushDone => FlushUnlockStep(cfg, recs0, s, g, t, s');
    case AtBarrier2 => LeaveBarrier2Step(cfg, recs0, s, g, t, s');
    case Finished => FinishedStays(cfg, s, t);
  }

  lemma FinishedStays(cfg: Config, s: State, t: nat)
    requires t < |s.tasks| && s.tasks[t].pc == Finished
    ensures TaskNext(cfg, s, t) == None
  {
  }
}
