/** Lookup results on their way to the shared list, the barriers, and the master's steps. */
module TaskletResults {
  import opened Util
  import opened Entries
  import opened BucketSpec
  import opened ChainHeap
  import opened IndexLayout
  import opened PrimaryIndex
  import opened Interleavings
  import opened Tasklets
  import opened TaskletInvariant
  import opened TaskletFrames
  import opened TaskletSteps

  /** Everything but locks, results and phase, for a step of a tasklet that touches neither index nor allocator. */
  lemma Elsewhere(cfg: Config, recs0: seq<seq<Rec>>, s: State, s': State, g: Ghost, g': Ghost, t: nat, k: Task,
                  k': Task)
    requires Inv(cfg, recs0, s, g) && Moved(s, s', t, k, k')
    requires s'.mem == s.mem && s'.cur == s.cur && s'.avail == s.avail && s'.locks == s.locks
             && s'.allocLock == s.allocLock
    requires g' == g.(rlog := g'.rlog)
    requires !HoldsBucket(k.pc) && !HoldsBucket(k'.pc) && Committed(cfg, k') == Committed(cfg, k)
    requires Demand(cfg, |s.tasks|, t, k') <= Demand(cfg, |s.tasks|, t, k)
    requires TaskOk(cfg, g.vmem, g.view, |s.tasks|, t, k')
    requires ResLockOk(s') && ResultsOk(cfg, recs0, s', g') && PhaseOk(cfg, s')
    ensures Inv(cfg, recs0, s', g')
  {
    hide HeapPart, TasksOk, BucketLocksOk, AllocLockOk, ResLockOk, NodesOk, MemoryPart, LogOk, ResultsOk, PhaseOk,
         TaskOk, Committed, Demand;
    HeapGhost(cfg, g, g');
    KeepTasks(cfg, s, s', g, g', t, k, k');
    KeepBucketLocks(cfg, s, s', t, k, k');
    KeepAllocLock(s, s', t, k, k');
    KeepNodes(cfg, s, s', g, g', t, k, k');
    KeepMemory(cfg, s, s', g, g', t, k, k');
    KeepLog(cfg, recs0, s, s', g, g', t, k, k');
  }

  lemma TaskAt(cfg: Config, s: State, g: Ghost, t: nat)
    requires cfg.size > 0 && TasksOk(cfg, s, g) && t < |s.tasks|
    ensures TaskOk(cfg, g.vmem, g.view, |s.tasks|, t, s.tasks[t])
  {
  }

  // --- Barriers -----------------------------------------------------------------------------

  lemma StartStep(cfg: Config, recs0: seq<seq<Rec>>, s: State, g: Ghost, t: nat, s': State)
    requires Inv(cfg, recs0, s, g) && t < |s.tasks| && s.tasks[t].pc.AtStart?
    requires TaskNext(cfg, s, t) == Some(s')
    ensures Inv(cfg, recs0, s', g)
  {
    hide HeapPart, BucketLocksOk, AllocLockOk, ResLockOk, NodesOk, MemoryPart, LogOk, ResultsOk, PhaseOk, OpNext;
    var k, k' := s.tasks[t], s.tasks[t].(pc := AtBarrier1);
    assert s' == Move(s, t, AtBarrier1);
    hide TaskNext;
    TaskAt(cfg, s, g, t);
    KeepResLock(s, s', t, k, k');
    KeepResults(cfg, recs0, s, s', g, g, t, k, k');
    ArrivePhase(cfg, s, s', t, k, k');
    Elsewhere(cfg, recs0, s, s', g, g, t, k, k');
  }

  /** Arriving at a barrier, or leaving barrier1, keeps the phases in order. */
  lemma ArrivePhase(cfg: Config, s: State, s': State, t: nat, k: Task, k': Task)
    requires Moved(s, s', t, k, k') && PhaseOk(cfg, s) && s' == s.(tasks := s'.tasks)
    requires (k.pc.AtStart? && k'.pc.AtBarrier1?) || (k.pc.AtBarrier1? && AllArrived1(s) && k'.pc.Next?)
             || (k.pc.Next? && k'.pc.AtBarrier2?)
    ensures PhaseOk(cfg, s')
  {
    if k.pc.AtStart? {
      assert !AllArrived1(s) && !AllArrived2(s);
    } else {
      assert AllArrived1(s) && AllArrived1(s') && !AllArrived2(s);
    }
  }

  lemma LeaveBarrier1Step(cfg: Config, recs0: seq<seq<Rec>>, s: State, g: Ghost, t: nat, s': State)
    requires Inv(cfg, recs0, s, g) && t < |s.tasks| && s.tasks[t].pc.AtBarrier1?
    requires TaskNext(cfg, s, t) == Some(s')
    ensures Inv(cfg, recs0, s', g)
  {
    hide HeapPart, BucketLocksOk, AllocLockOk, ResLockOk, NodesOk, MemoryPart, LogOk, ResultsOk, PhaseOk, OpNext;
    var k, k' := s.tasks[t], s.tasks[t].(pc := Next);
    assert s' == Move(s, t, Next) && AllArrived1(s);
    hide TaskNext;
    TaskAt(cfg, s, g, t);
    KeepResLock(s, s', t, k, k');
    KeepResults(cfg, recs0, s, s', g, g, t, k, k');
    ArrivePhase(cfg, s, s', t, k, k');
    Elsewhere(cfg, recs0, s, s', g, g, t, k, k');
  }

  lemma LeaveBarrier2Step(cfg: Config, recs0: seq<seq<Rec>>, s: State, g: Ghost, t: nat, s': State)
    requires Inv(cfg, recs0, s, g) && t < |s.tasks| && s.tasks[t].pc.AtBarrier2?
    requires TaskNext(cfg, s, t) == Some(s')
    ensures Inv(cfg, recs0, s', g)
  {
    hide HeapPart, BucketLocksOk, AllocLockOk, ResLockOk, NodesOk, MemoryPart, LogOk, ResultsOk, PhaseOk, OpNext;
    var k, k' := s.tasks[t], s.tasks[t].(pc := Finished);
    assert s' == Move(s, t, Finished) && AllArrived2(s);
    hide TaskNext;
    TaskAt(cfg, s, g, t);
    KeepResLock(s, s', t, k, k');
    KeepResults(cfg, recs0, s, s', g, g, t, k, k');
    FinishPhase(cfg, s, s', t, k, k');
    Elsewhere(cfg, recs0, s, s', g, g, t, k, k');
  }

  lemma FinishPhase(cfg: Config, s: State, s': State, t: nat, k: Task, k': Task)
    requires Moved(s, s', t, k, k') && PhaseOk(cfg, s) && s' == s.(tasks := s'.tasks)
    requires k.pc.AtBarrier2? && k'.pc.Finished? && AllArrived2(s)
    ensures PhaseOk(cfg, s')
  {
    assert AllArrived2(s') && AllArrived1(s) && AllArrived1(s');
  }

  // --- Between elements ---------------------------------------------------------------------

  lemma NextStep(cfg: Config, recs0: seq<seq<Rec>>, s: State, g: Ghost, t: nat, s': State)
    requires Inv(cfg, recs0, s, g) && t < |s.tasks| && s.tasks[t].pc.Next?
    requires TaskNext(cfg, s, t) == Some(s')
    ensures Inv(cfg, recs0, s', g)
  {
    hide HeapPart, BucketLocksOk, AllocLockOk, ResLockOk, NodesOk, MemoryPart, LogOk, ResultsOk, OpNext, Block;
    var k := s.tasks[t];
    TaskAt(cfg, s, g, t);
    assert s.batch == cfg.items && s.index == FindIndex(cfg.descs, cfg.id) by { assert AllArrived1(s); }
    hide PhaseOk;
    if s.index.None? {
      Arrive2(cfg, recs0, s, g, t, s');
    } else if k.handled < |Slice(cfg, |s.tasks|, t)| {
      TakeElement(cfg, recs0, s, g, t, s');
    } else if k.cache != [] {
      WantFlushStep(cfg, recs0, s, g, t, s');
    } else {
      Arrive2(cfg, recs0, s, g, t, s');
    }
  }

  lemma TakeElement(cfg: Config, recs0: seq<seq<Rec>>, s: State, g: Ghost, t: nat, s': State)
    requires Inv(cfg, recs0, s, g) && t < |s.tasks| && s.tasks[t].pc.Next? && FindIndex(cfg.descs, cfg.id).Some?
    requires s.tasks[t].handled < |Slice(cfg, |s.tasks|, t)|
    requires s' == s.(tasks := s.tasks[t := s.tasks[t].(pc := Acquire, handled := s.tasks[t].handled + 1)])
    ensures Inv(cfg, recs0, s', g)
  {
    hide HeapPart, BucketLocksOk, AllocLockOk, ResLockOk, NodesOk, MemoryPart, LogOk, ResultsOk, PhaseOk, Block;
    TaskAt(cfg, s, g, t);
    assert |g.view.chains| == |g.view.recs| == |cfg.heads| by {
      HeapOf(cfg, g);
      HeapSizes(g.vmem, cfg.heads, g.view);
    }
    var k := s.tasks[t];
    var k' := k.(pc := Acquire, handled := k.handled + 1);
    CurBucketBound(cfg, |s.tasks|, t, k');
    assert TaskOk(cfg, g.vmem, g.view, |s.tasks|, t, k');
    hide TaskOk, TasksOk;
    KeepResLock(s, s', t, k, k');
    KeepResults(cfg, recs0, s, s', g, g, t, k, k');
    KeepPhase(cfg, s, s', t, k, k');
    Elsewhere(cfg, recs0, s, s', g, g, t, k, k');
  }

  lemma WantFlushStep(cfg: Config, recs0: seq<seq<Rec>>, s: State, g: Ghost, t: nat, s': State)
    requires Inv(cfg, recs0, s, g) && t < |s.tasks| && s.tasks[t].pc.Next? && s.tasks[t].cache != []
    requires FindIndex(cfg.descs, cfg.id).Some? && s' == Move(s, t, WantFlush)
    ensures Inv(cfg, recs0, s', g)
  {
    hide HeapPart, BucketLocksOk, AllocLockOk, ResLockOk, NodesOk, MemoryPart, LogOk, ResultsOk, PhaseOk, Block;
    TaskAt(cfg, s, g, t);
    var k, k' := s.tasks[t], s.tasks[t].(pc := WantFlush);
    assert TaskOk(cfg, g.vmem, g.view, |s.tasks|, t, k');
    hide TaskOk, TasksOk;
    KeepResLock(s, s', t, k, k');
    KeepResults(cfg, recs0, s, s', g, g, t, k, k');
    KeepPhase(cfg, s, s', t, k, k');
    Elsewhere(cfg, recs0, s, s', g, g, t, k, k');
  }

  lemma Arrive2(cfg: Config, recs0: seq<seq<Rec>>, s: State, g: Ghost, t: nat, s': State)
    requires Inv(cfg, recs0, s, g) && t < |s.tasks| && s.tasks[t].pc.Next? && s' == Move(s, t, AtBarrier2)
    requires TaskOk(cfg, g.vmem, g.view, |s.tasks|, t, s.tasks[t].(pc := AtBarrier2))
    ensures Inv(cfg, recs0, s', g)
  {
    hide HeapPart, TasksOk, BucketLocksOk, AllocLockOk, ResLockOk, NodesOk, MemoryPart, LogOk, ResultsOk, PhaseOk,
         TaskOk;
    var k, k' := s.tasks[t], s.tasks[t].(pc := AtBarrier2);
    KeepResLock(s, s', t, k, k');
    KeepResults(cfg, recs0, s, s', g, g, t, k, k');
    ArrivePhase(cfg, s, s', t, k, k');
    Elsewhere(cfg, recs0, s, s', g, g, t, k, k');
  }

  lemma CurBucketBound(cfg: Config, p: nat, t: nat, k: Task)
    requires ConfigOk(cfg) && t < p && FindIndex(cfg.descs, cfg.id).Some?
    ensures CurBucket(cfg, p, t, k) < |cfg.heads|
  {
    BucketAtBounds(SlotOf(cfg), cfg.size, LocalBucket(CurItem(cfg, p, t, k).key, cfg.size), |cfg.descs|);
  }

  // --- Answers ------------------------------------------------------------------------------

  lemma FetchStep(cfg: Config, recs0: seq<seq<Rec>>, s: State, g: Ghost, t: nat, s': State)
    requires Inv(cfg, recs0, s, g) && t < |s.tasks| && s.tasks[t].pc.Fetch?
    requires TaskNext(cfg, s, t) == Some(s')
    ensures Inv(cfg, recs0, s', g)
  {
    hide HeapPart, BucketLocksOk, AllocLockOk, ResLockOk, NodesOk, LogOk, ResultsOk, PhaseOk, TaskNext, Block;
    WorkContext(cfg, recs0, s, g, t);
    TaskAt(cfg, s, g, t);
    var k, b, it := s.tasks[t], CurBucket(cfg, |s.tasks|, t, s.tasks[t]), CurItem(cfg, |s.tasks|, t, s.tasks[t]);
    var res := k.pc.res;
    NothingDirty(cfg, s, g);
    hide MemoryPart;
    var cache := k.cache + [Res(it.arg, ValueOf(g.view.recs[b], it.key))];
    var k' := k.(pc := if |cache| >= RESULT_CACHE_SIZE then WantFlush else Next, cache := cache);
    assert s' == s.(tasks := s.tasks[t := k']);
    hide OpNext;
    assert TaskOk(cfg, g.vmem, g.view, |s.tasks|, t, k');
    hide TaskOk, TasksOk, PcOk;
    KeepResLock(s, s', t, k, k');
    LookupRecs(cfg, recs0, s, g);
    AnswerOne(cfg, recs0, s, s', g, t, k, k');
    KeepPhase(cfg, s, s', t, k, k');
    Elsewhere(cfg, recs0, s, s', g, g, t, k, k');
  }

  /** Without an insert under way the memory is exactly what the bookkeeping says. */
  lemma NothingDirty(cfg: Config, s: State, g: Ghost)
    requires cfg.size > 0 && MemoryPart(cfg, s, g)
    requires forall t :: 0 <= t < |s.tasks| ==> !s.tasks[t].pc.InsFill?
    ensures s.mem == g.vmem
  {
    forall a | a in s.mem ensures s.mem[a] == g.vmem[a] {
      assert a !in g.dirty;
    }
  }

  lemma {:induction false} LookupKeepsRecs(cfg: Config, recs: seq<seq<Rec>>, log: seq<Ev<Item>>, metas: seq<Metadata>)
    requires cfg.size > 0 && cfg.op == LookupOp && |metas| == |log|
    ensures Apply(cfg, recs, log, metas) == recs
    decreases |log|
  {
    if log != [] { LookupKeepsRecs(cfg, recs, log[..|log| - 1], metas[..|log| - 1]); }
  }

  /** A lookup batch changes no record and starts no insert. */
  lemma LookupRecs(cfg: Config, recs0: seq<seq<Rec>>, s: State, g: Ghost)
    requires Inv(cfg, recs0, s, g) && cfg.op == LookupOp
    ensures g.view.recs == recs0
  {
    hide HeapPart, TasksOk, BucketLocksOk, AllocLockOk, ResLockOk, NodesOk, MemoryPart, ResultsOk, PhaseOk;
    LookupKeepsRecs(cfg, recs0, g.log, g.metas);
  }

  /** One element more of a slice, with its answer. */
  lemma AnswersNext(cfg: Config, recs0: seq<seq<Rec>>, slice: seq<Item>, n: nat)
    requires cfg.size > 0 && 1 <= n <= |slice|
    ensures Answers(cfg, recs0, slice[..n]) == Answers(cfg, recs0, slice[..n - 1]) + [Answer(cfg, recs0, slice[n - 1])]
  {
    hide Answer;
    assert slice[..n] == slice[..n - 1] + [slice[n - 1]];
  }

  lemma AnsweredNext(cfg: Config, recs0: seq<seq<Rec>>, tasks: seq<Task>, rlog: seq<Ev<Res>>, t: nat, k: Task, k': Task)
    requires cfg.size > 0 && t < |tasks| && tasks[t] == k && AnsweredOk(cfg, recs0, tasks, rlog)
    requires k.pc.Fetch? && (k'.pc.WantFlush? || k'.pc.Next?) && k'.handled == k.handled
    requires 1 <= k.handled <= |Slice(cfg, |tasks|, t)|
    requires k'.cache == k.cache + [Answer(cfg, recs0, CurItem(cfg, |tasks|, t, k))]
    ensures AnsweredOk(cfg, recs0, tasks[t := k'], rlog)
  {
    hide Slice, Answer, Answers, Proj;
    AnswersNext(cfg, recs0, Slice(cfg, |tasks|, t), k.handled);
    assert Proj(rlog, t) + Unflushed(k') == (Proj(rlog, t) + Unflushed(k))
           + [Answer(cfg, recs0, CurItem(cfg, |tasks|, t, k))];
  }

  lemma SharedStays(s: State, s': State, rlog: seq<Ev<Res>>, t: nat, k: Task, k': Task)
    requires Moved(s, s', t, k, k') && SharedOk(s, rlog) && s' == s.(tasks := s'.tasks) && !k'.pc.FlushWritten?
    ensures SharedOk(s', rlog)
  {
  }

  lemma AnswerOne(cfg: Config, recs0: seq<seq<Rec>>, s: State, s': State, g: Ghost, t: nat, k: Task, k': Task)
    requires cfg.size > 0 && Moved(s, s', t, k, k') && ResultsOk(cfg, recs0, s, g) && s' == s.(tasks := s'.tasks)
    requires k.pc.Fetch? && (k'.pc.WantFlush? || k'.pc.Next?) && k'.handled == k.handled
             && 1 <= k.handled <= |Slice(cfg, |s.tasks|, t)|
    requires k'.cache == k.cache + [Answer(cfg, recs0, CurItem(cfg, |s.tasks|, t, k))]
    ensures ResultsOk(cfg, recs0, s', g)
  {
    hide SharedOk, AnsweredOk, Slice, Answer;
    if cfg.op == LookupOp {
      SharedStays(s, s', g.rlog, t, k, k');
      AnsweredNext(cfg, recs0, s.tasks, g.rlog, t, k, k');
    }
  }

  // --- Flushing -----------------------------------------------------------------------------

  lemma TakeResults(s: State, s': State, t: nat, k: Task, k': Task)
    requires Moved(s, s', t, k, k') && ResLockOk(s) && s.resLock.None? && s'.resLock == Some(t) && HoldsResults(k'.pc)
    ensures ResLockOk(s')
  {
    hide HoldsResults;
  }

  lemma GiveResults(s: State, s': State, t: nat, k: Task, k': Task)
    requires Moved(s, s', t, k, k') && ResLockOk(s) && HoldsResults(k.pc) && s'.resLock.None? && !HoldsResults(k'.pc)
    ensures ResLockOk(s')
  {
    hide HoldsResults;
  }

  lemma FlushLockStep(cfg: Config, recs0: seq<seq<Rec>>, s: State, g: Ghost, t: nat, s': State)
    requires Inv(cfg, recs0, s, g) && t < |s.tasks| && s.tasks[t].pc.WantFlush?
    requires TaskNext(cfg, s, t) == Some(s')
    ensures Inv(cfg, recs0, s', g)
  {
    hide HeapPart, BucketLocksOk, AllocLockOk, ResLockOk, NodesOk, MemoryPart, LogOk, ResultsOk, PhaseOk, OpNext;
    var k, k' := s.tasks[t], s.tasks[t].(pc := FlushHeld);
    assert s.resLock.None? && s' == Move(s.(resLock := Some(t)), t, FlushHeld);
    hide TaskNext;
    TaskAt(cfg, s, g, t);
    TakeResults(s, s', t, k, k');
    KeepResults(cfg, recs0, s, s', g, g, t, k, k');
    KeepPhase(cfg, s, s', t, k, k');
    Elsewhere(cfg, recs0, s, s', g, g, t, k, k');
  }

  lemma FlushWriteStep(cfg: Config, recs0: seq<seq<Rec>>, s: State, g: Ghost, t: nat, s': State)
    requires Inv(cfg, recs0, s, g) && t < |s.tasks| && s.tasks[t].pc.FlushHeld?
    requires TaskNext(cfg, s, t) == Some(s')
    ensures Inv(cfg, recs0, s', g)
  {
    hide HeapPart, BucketLocksOk, AllocLockOk, ResLockOk, NodesOk, MemoryPart, LogOk, ResultsOk, PhaseOk, OpNext;
    var k, k' := s.tasks[t], s.tasks[t].(pc := FlushWritten);
    assert s.nnz <= |s.data| && s' == Move(s.(data := Overlay(s.data, s.nnz, k.cache)), t, FlushWritten);
    hide TaskNext;
    TaskAt(cfg, s, g, t);
    KeepResLock(s, s', t, k, k');
    WrittenBlock(cfg, recs0, s, s', g, t, k, k');
    KeepPhase(cfg, s, s', t, k, k');
    Elsewhere(cfg, recs0, s, s', g, g, t, k, k');
  }

  lemma WrittenBlock(cfg: Config, recs0: seq<seq<Rec>>, s: State, s': State, g: Ghost, t: nat, k: Task, k': Task)
    requires cfg.size > 0 && Moved(s, s', t, k, k') && ResultsOk(cfg, recs0, s, g) && ResLockOk(s)
    requires k.pc.FlushHeld? && k' == k.(pc := FlushWritten) && s.nnz <= |s.data|
    requires s' == s.(data := Overlay(s.data, s.nnz, k.cache), tasks := s'.tasks)
    ensures ResultsOk(cfg, recs0, s', g)
  {
    hide Block, Answers;
    assert s'.data[..s.nnz] == s.data[..s.nnz];
    assert s'.data[s.nnz..s.nnz + |k.cache|] == k.cache;
    forall u | 0 <= u < |s'.tasks| && s'.tasks[u].pc.FlushWritten? ensures u == t {
      assert HoldsResults(s.tasks[t].pc) && (u != t ==> HoldsResults(s.tasks[u].pc));
    }
  }

  lemma FlushCountStep(cfg: Config, recs0: seq<seq<Rec>>, s: State, g: Ghost, t: nat, s': State) returns (g': Ghost)
    requires Inv(cfg, recs0, s, g) && t < |s.tasks| && s.tasks[t].pc.FlushWritten?
    requires TaskNext(cfg, s, t) == Some(s')
    ensures Inv(cfg, recs0, s', g')
  {
    hide HeapPart, BucketLocksOk, AllocLockOk, ResLockOk, NodesOk, MemoryPart, LogOk, ResultsOk, PhaseOk, OpNext;
    var k, k' := s.tasks[t], s.tasks[t].(pc := FlushDone);
    assert s' == Move(s.(nnz := s.nnz + |k.cache|), t, FlushDone);
    hide TaskNext;
    g' := g.(rlog := g.rlog + Tagged(t, k.cache));
    TaskAt(cfg, s, g, t);
    KeepResLock(s, s', t, k, k');
    CountedBlock(cfg, recs0, s, s', g, g', t, k, k');
    NotAllArrived2(s, t);
    KeepPhase(cfg, s, s', t, k, k');
    Elsewhere(cfg, recs0, s, s', g, g', t, k, k');
  }

  lemma NotAllArrived2(s: State, t: nat)
    requires t < |s.tasks| && !AfterWork(s.tasks[t].pc)
    ensures !AllArrived2(s)
  {
  }

  /** Counting a written block in: the shared list grows by the tasklet's cached answers. */
  lemma CountedBlock(cfg: Config, recs0: seq<seq<Rec>>, s: State, s': State, g: Ghost, g': Ghost, t: nat, k: Task,
                     k': Task)
    requires cfg.size > 0 && Moved(s, s', t, k, k') && ResultsOk(cfg, recs0, s, g) && ResLockOk(s) && PhaseOk(cfg, s)
    requires k.pc.FlushWritten? && k' == k.(pc := FlushDone)
    requires s' == s.(nnz := s.nnz + |k.cache|, tasks := s'.tasks) && g'.rlog == g.rlog + Tagged(t, k.cache)
    ensures ResultsOk(cfg, recs0, s', g')
  {
    hide SharedOk, AnsweredOk;
    assert AllArrived1(s);
    hide PhaseOk, AllArrived1;
    if cfg.op == LookupOp {
      CountedShared(s, s', g.rlog, t, k, k');
      CountedAnswers(cfg, recs0, s.tasks, g.rlog, t, k, k');
    }
  }

  lemma CountedShared(s: State, s': State, rlog: seq<Ev<Res>>, t: nat, k: Task, k': Task)
    requires Moved(s, s', t, k, k') && SharedOk(s, rlog) && ResLockOk(s) && s.master != MPrepare
    requires k.pc.FlushWritten? && k' == k.(pc := FlushDone) && s' == s.(nnz := s.nnz + |k.cache|, tasks := s'.tasks)
    ensures SharedOk(s', rlog + Tagged(t, k.cache))
  {
    OneWriter(s, t);
    hide ResLockOk;
    assert s.data[..s'.nnz] == s.data[..s.nnz] + s.data[s.nnz..s'.nnz];
    assert Whats(rlog + Tagged(t, k.cache)) == Whats(rlog) + k.cache;
  }

  lemma CountedAnswers(cfg: Config, recs0: seq<seq<Rec>>, tasks: seq<Task>, rlog: seq<Ev<Res>>, t: nat, k: Task,
                       k': Task)
    requires cfg.size > 0 && t < |tasks| && tasks[t] == k && AnsweredOk(cfg, recs0, tasks, rlog)
    requires k.pc.FlushWritten? && k' == k.(pc := FlushDone)
    ensures AnsweredOk(cfg, recs0, tasks[t := k'], rlog + Tagged(t, k.cache))
  {
    hide Block, Answers, Proj;
    forall u | 0 <= u < |tasks|
      ensures Proj(rlog + Tagged(t, k.cache), u) + Unflushed(tasks[t := k'][u]) == Proj(rlog, u) + Unflushed(tasks[u])
    {
      ProjAppendBlock(rlog, t, k.cache, u);
    }
  }

  lemma OneWriter(s: State, t: nat)
    requires ResLockOk(s) && t < |s.tasks| && HoldsResults(s.tasks[t].pc)
    ensures forall u :: 0 <= u < |s.tasks| && u != t ==> !HoldsResults(s.tasks[u].pc)
  {
  }

  lemma FlushUnlockStep(cfg: Config, recs0: seq<seq<Rec>>, s: State, g: Ghost, t: nat, s': State)
    requires Inv(cfg, recs0, s, g) && t < |s.tasks| && s.tasks[t].pc.FlushDone?
    requires TaskNext(cfg, s, t) == Some(s')
    ensures Inv(cfg, recs0, s', g)
  {
    hide HeapPart, BucketLocksOk, AllocLockOk, ResLockOk, NodesOk, MemoryPart, LogOk, ResultsOk, PhaseOk, OpNext;
    var k, k' := s.tasks[t], s.tasks[t].(pc := Next, cache := []);
    assert s' == s.(resLock := None, tasks := s.tasks[t := k']);
    hide TaskNext;
    TaskAt(cfg, s, g, t);
    GiveResults(s, s', t, k, k');
    KeepResults(cfg, recs0, s, s', g, g, t, k, k');
    KeepPhase(cfg, s, s', t, k, k');
    Elsewhere(cfg, recs0, s, s', g, g, t, k, k');
  }
}
