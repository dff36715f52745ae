/** Every run of a launch is bounded, so every launch finishes under any scheduler that keeps stepping. */
module TaskletTermination {
  import opened Util
  import opened Entries
  import opened ChainHeap
  import opened Tasklets
  import opened TaskletInvariant
  import opened TaskletFrames
  import opened TaskletSteps
  import opened TaskletCommits
  import opened TaskletEffects
  import opened TaskletResults
  import opened TaskletRuns
  import opened TaskletTheorems
  import opened TaskletProgress

  // --- The measure --------------------------------------------------------------------------

  /** A chain walk's greatest length; inserts walk no chain. */
  function Longest(op: OpType, mem: Memory): nat {
    if op == InsertOp then 0 else |mem.Keys|
  }

  /** Nodes still ahead of a tasklet that walks a chain. */
  function Ahead(mem: Memory, pc: Pc): nat {
    match pc
    case FindScan(_, buf) => |Walk(mem, buf.next)|
    case DelRead(buf) => |Walk(mem, buf.next)|
    case DelScan(_, _, buf) => |Walk(mem, buf.next)|
    case _ => 0
  }

  /** Steps left at a program counter until the next element, not counting nodes ahead. */
  function Rank(pc: Pc, longest: nat, pending: bool): nat {
    match pc
    case AtStart => 6
    case AtBarrier1 => 5
    case Next => if pending then 9 else 4
    case Acquire => longest + 20
    case Locked => longest + 19
    case InsRead(_) => 18
    case InsAllocHeld(_) => 17
    case InsAllocCur(_, _) => 16
    case InsAllocAvail(_, _) => 15
    case InsAllocDone(_, _) => 14
    case InsLink(_, _) => 13
    case InsFill(_, _) => 12
    case DelRead(_) => 14
    case DelCopy(_) => 12
    case DelScan(_, _, _) => 13
    case FindScan(_, _) => 13
    case Release(_) => 11
    case Fetch(_) => 10
    case WantFlush => 8
    case FlushHeld => 7
    case FlushWritten => 6
    case FlushDone => 5
    case AtBarrier2 => 1
    case Finished => 0
  }

  ghost function TaskLeft(cfg: Config, mem: Memory, p: nat, t: nat, k: Task): int
    requires t < p
  {
    (|Slice(cfg, p, t)| - k.handled) * (Longest(cfg.op, mem) + 30) + Rank(k.pc, Longest(cfg.op, mem), k.cache != [])
      + Ahead(mem, k.pc)
  }

  ghost function TasksLeft(cfg: Config, mem: Memory, tasks: seq<Task>, n: nat): int
    requires n <= |tasks|
  {
    if n == 0 then 0 else TasksLeft(cfg, mem, tasks, n - 1) + TaskLeft(cfg, mem, |tasks|, n - 1, tasks[n - 1])
  }

  function MasterLeft(pc: MasterPc): nat {
    match pc case MPrepare => 5 case MWait1 => 4 case MRun => 3 case MWait2 => 2 case MMerge => 1 case MDone => 0
  }

  ghost function Left(cfg: Config, s: State): int {
    TasksLeft(cfg, s.mem, s.tasks, |s.tasks|) + MasterLeft(s.master)
  }

  // --- Walks --------------------------------------------------------------------------------

  lemma {:induction false} WalkBounded(mem: Memory, a: Addr)
    ensures |Walk(mem, a)| <= |mem.Keys|
    decreases mem.Keys
  {
    if a != NULL && a in mem {
      assert a in mem.Keys && (mem - {a}).Keys == mem.Keys - {a};
      WalkBounded(mem - {a}, mem[a].next);
    }
  }

  /** Behind the i-th node of a chain lie the nodes from i + 1 on. */
  lemma WalkBehind(mem: Memory, ps: seq<Addr>, c: seq<Rec>, i: nat)
    requires ChainOk(mem, ps, c) && i < |ps|
    ensures ps[i] in mem && Walk(mem, mem[ps[i]].next) == ps[i + 1..]
  {
    WalkFollows(mem, mem, ps, c, i + 1);
  }

  // --- Sums ---------------------------------------------------------------------------------

  lemma {:induction false} OthersSame(cfg: Config, mem: Memory, mem': Memory, tasks: seq<Task>, t: nat, k': Task,
                                      n: nat)
    requires n <= |tasks| && t < |tasks|
    requires forall u :: 0 <= u < |tasks| && u != t ==>
             TaskLeft(cfg, mem', |tasks|, u, tasks[u]) == TaskLeft(cfg, mem, |tasks|, u, tasks[u])
    ensures TasksLeft(cfg, mem', tasks[t := k'], n) - TasksLeft(cfg, mem, tasks, n) ==
            if t < n then TaskLeft(cfg, mem', |tasks|, t, k') - TaskLeft(cfg, mem, |tasks|, t, tasks[t]) else 0
  {
    hide TaskLeft;
    if n > 0 { OthersSame(cfg, mem, mem', tasks, t, k', n - 1); }
  }

  lemma {:induction false} TasksLeftNonNegative(cfg: Config, mem: Memory, tasks: seq<Task>, n: nat)
    requires n <= |tasks|
    requires forall u :: 0 <= u < |tasks| ==> TaskLeft(cfg, mem, |tasks|, u, tasks[u]) >= 0
    ensures TasksLeft(cfg, mem, tasks, n) >= 0
  {
    hide TaskLeft;
    if n > 0 { TasksLeftNonNegative(cfg, mem, tasks, n - 1); }
  }

  lemma LeftNonNegative(cfg: Config, recs0: seq<seq<Rec>>, s: State, g: Ghost)
    requires Inv(cfg, recs0, s, g)
    ensures Left(cfg, s) >= 0
  {
    hide HeapPart, LocksOk, NodesOk, MemoryPart, LogOk, ResultsOk, PhaseOk, Block, Rank, Ahead, Longest;
    forall u | 0 <= u < |s.tasks| ensures TaskLeft(cfg, s.mem, |s.tasks|, u, s.tasks[u]) >= 0 {
      TaskAt(cfg, s, g, u);
      Product(|Slice(cfg, |s.tasks|, u)| - s.tasks[u].handled, Longest(cfg.op, s.mem) + 30);
    }
    TasksLeftNonNegative(cfg, s.mem, s.tasks, |s.tasks|);
  }

  lemma Product(a: int, b: nat)
    requires a >= 0
    ensures a * b >= 0
  {
  }

  // --- One step -----------------------------------------------------------------------------

  /** A step that keeps a tasklet at its element and lowers its rank. */
  lemma Lower(cfg: Config, s: State, s': State, t: nat, k: Task, k': Task)
    requires Moved(s, s', t, k, k') && s'.master == s.master && k'.handled == k.handled
    requires Longest(cfg.op, s'.mem) == Longest(cfg.op, s.mem)
    requires forall u :: 0 <= u < |s.tasks| && u != t ==> Ahead(s'.mem, s.tasks[u].pc) == Ahead(s.mem, s.tasks[u].pc)
    requires Rank(k'.pc, Longest(cfg.op, s.mem), k'.cache != []) + Ahead(s'.mem, k'.pc)
             < Rank(k.pc, Longest(cfg.op, s.mem), k.cache != []) + Ahead(s.mem, k.pc)
    ensures Left(cfg, s') < Left(cfg, s)
  {
    hide Rank, Ahead, Longest, Block;
    OthersSame(cfg, s.mem, s'.mem, s.tasks, t, k', |s.tasks|);
  }

  lemma StartsEmpty(cfg: Config, recs0: seq<seq<Rec>>, s: State, g: Ghost, t: nat)
    requires Inv(cfg, recs0, s, g) && t < |s.tasks|
    ensures BeforeWork(s.tasks[t].pc) ==> s.tasks[t].cache == []
  {
    hide HeapPart, LocksOk, NodesOk, MemoryPart, LogOk, ResultsOk, PhaseOk, Block;
    TaskAt(cfg, s, g, t);
  }

  lemma FlushShape(cfg: Config, s: State, t: nat, s': State)
    requires t < |s.tasks| && TaskNext(cfg, s, t) == Some(s') && Flushing(s.tasks[t].pc)
    ensures s'.mem == s.mem && s'.master == s.master && |s'.tasks| == |s.tasks| && s'.tasks == s.tasks[t := s'.tasks[t]]
    ensures if s.tasks[t].pc.Next? && s'.tasks[t].pc.Acquire?
            then s'.tasks[t] == s.tasks[t].(pc := Acquire, handled := s.tasks[t].handled + 1)
            else s'.tasks[t].handled == s.tasks[t].handled && !Working(s'.tasks[t].pc)
  {
    hide OpNext, Block, AllArrived1, AllArrived2, Overlay, LocalBucket;
  }

  lemma BarrierShape(cfg: Config, s: State, t: nat, s': State)
    requires t < |s.tasks| && TaskNext(cfg, s, t) == Some(s') && !Working(s.tasks[t].pc) && !Flushing(s.tasks[t].pc)
    ensures s'.mem == s.mem && s'.master == s.master && |s'.tasks| == |s.tasks| && s'.tasks == s.tasks[t := s'.tasks[t]]
    ensures if s.tasks[t].pc.Next? && s'.tasks[t].pc.Acquire?
            then s'.tasks[t] == s.tasks[t].(pc := Acquire, handled := s.tasks[t].handled + 1)
            else s'.tasks[t].handled == s.tasks[t].handled && !Working(s'.tasks[t].pc)
  {
    hide OpNext, Block, AllArrived1, AllArrived2, Overlay, LocalBucket;
  }

  lemma FlushRank(cfg: Config, s: State, t: nat, s': State, longest: nat)
    requires t < |s.tasks| && TaskNext(cfg, s, t) == Some(s') && Flushing(s.tasks[t].pc)
    requires BeforeWork(s.tasks[t].pc) ==> s.tasks[t].cache == []
    requires |s'.tasks| == |s.tasks| && !Working(s'.tasks[t].pc)
    ensures Rank(s'.tasks[t].pc, longest, s'.tasks[t].cache != []) <
            Rank(s.tasks[t].pc, longest, s.tasks[t].cache != [])
  {
    hide OpNext, Block, AllArrived1, AllArrived2, Overlay, LocalBucket;
  }

  lemma BarrierRank(cfg: Config, s: State, t: nat, s': State, longest: nat)
    requires t < |s.tasks| && TaskNext(cfg, s, t) == Some(s') && !Working(s.tasks[t].pc) && !Flushing(s.tasks[t].pc)
    requires BeforeWork(s.tasks[t].pc) ==> s.tasks[t].cache == []
    requires |s'.tasks| == |s.tasks| && !Working(s'.tasks[t].pc)
    ensures Rank(s'.tasks[t].pc, longest, s'.tasks[t].cache != []) <
            Rank(s.tasks[t].pc, longest, s.tasks[t].cache != [])
  {
    hide OpNext, Block, AllArrived1, AllArrived2, Overlay, LocalBucket;
  }

  /** Steps outside the buckets. */
  lemma OuterStep(cfg: Config, recs0: seq<seq<Rec>>, s: State, g: Ghost, t: nat, s': State)
    requires Inv(cfg, recs0, s, g) && t < |s.tasks| && TaskNext(cfg, s, t) == Some(s') && !Working(s.tasks[t].pc)
    ensures Left(cfg, s') < Left(cfg, s)
  {
    hide Inv, TaskNext, Ahead, Longest, Block, Rank;
    StartsEmpty(cfg, recs0, s, g, t);
    if Flushing(s.tasks[t].pc) { FlushShape(cfg, s, t, s'); } else { BarrierShape(cfg, s, t, s'); }
    var k, k' := s.tasks[t], s'.tasks[t];
    if k.pc.Next? && k'.pc.Acquire? {
      TakeLower(cfg, s, s', t, k, k');
    } else {
      if Flushing(k.pc) {
        FlushRank(cfg, s, t, s', Longest(cfg.op, s.mem));
      } else {
        BarrierRank(cfg, s, t, s', Longest(cfg.op, s.mem));
      }
      OuterAhead(s.mem, k.pc, k'.pc);
      Lower(cfg, s, s', t, k, k');
    }
  }

  lemma OuterAhead(mem: Memory, pc: Pc, pc': Pc)
    requires !Working(pc) && !Working(pc')
    ensures Ahead(mem, pc) == 0 && Ahead(mem, pc') == 0
  {
  }

  /** Taking up the next element. */
  lemma TakeLower(cfg: Config, s: State, s': State, t: nat, k: Task, k': Task)
    requires Moved(s, s', t, k, k') && s'.master == s.master && s'.mem == s.mem
    requires k.pc.Next? && k' == k.(pc := Acquire, handled := k.handled + 1)
    ensures Left(cfg, s') < Left(cfg, s)
  {
    hide Block, Longest;
    OthersSame(cfg, s.mem, s.mem, s.tasks, t, k', |s.tasks|);
    var n, l := |Slice(cfg, |s.tasks|, t)| - k.handled, Longest(cfg.op, s.mem) + 30;
    assert (n - 1) * l == n * l - l;
  }

  /** An insert walks no chain. */
  lemma InsertAhead(cfg: Config, recs0: seq<seq<Rec>>, s: State, g: Ghost)
    requires Inv(cfg, recs0, s, g) && cfg.op == InsertOp
    ensures forall mem: Memory, u :: 0 <= u < |s.tasks| ==> Ahead(mem, s.tasks[u].pc) == 0
  {
    hide HeapPart, LocksOk, NodesOk, MemoryPart, LogOk, ResultsOk, PhaseOk, Block;
    forall u | 0 <= u < |s.tasks|
      ensures !s.tasks[u].pc.FindScan? && !s.tasks[u].pc.DelRead? && !s.tasks[u].pc.DelScan?
    {
      TaskAt(cfg, s, g, u);
    }
  }

  /** Outside insert batches the memory is what the bookkeeping says. */
  lemma NotInserting(cfg: Config, recs0: seq<seq<Rec>>, s: State, g: Ghost)
    requires Inv(cfg, recs0, s, g) && cfg.op != InsertOp
    ensures s.mem == g.vmem
  {
    hide HeapPart, LocksOk, NodesOk, MemoryPart, LogOk, ResultsOk, PhaseOk, Block;
    forall u | 0 <= u < |s.tasks| ensures !s.tasks[u].pc.InsFill? {
      TaskAt(cfg, s, g, u);
    }
    NothingDirty(cfg, s, g);
  }

  /** The program counters of an insert between taking up and leaving an element. */
  predicate Inserting(pc: Pc) {
    || pc.InsRead? || pc.InsAllocHeld? || pc.InsAllocCur? || pc.InsAllocAvail? || pc.InsAllocDone? || pc.InsLink?
    || pc.InsFill?
  }

  lemma InsertPcs(cfg: Config, recs0: seq<seq<Rec>>, s: State, g: Ghost, t: nat)
    requires Inv(cfg, recs0, s, g) && t < |s.tasks|
    requires cfg.op == InsertOp && Working(s.tasks[t].pc) && !s.tasks[t].pc.Fetch?
    ensures var pc := s.tasks[t].pc; Inserting(pc) || pc.Acquire? || pc.Locked? || pc.Release?
  {
    hide HeapPart, LocksOk, NodesOk, MemoryPart, LogOk, ResultsOk, PhaseOk, Block, CurMutex, BucketOf;
    TaskAt(cfg, s, g, t);
  }

  /** A step inside a bucket that only moves the program counter, and perhaps memory, allocator and mutexes. */
  ghost predicate Nearer(s: State, s': State, t: nat) {
    && t < |s.tasks| == |s'.tasks| && s'.master == s.master
    && s'.tasks == s.tasks[t := s.tasks[t].(pc := s'.tasks[t].pc)]
    && (forall pending :: Rank(s'.tasks[t].pc, 0, pending) < Rank(s.tasks[t].pc, 0, pending))
    && (forall mem: Memory :: Ahead(mem, s'.tasks[t].pc) == 0)
  }

  lemma InsertInside(cfg: Config, s: State, t: nat, it: Item, head: Addr, mutex: nat, s': State)
    requires t < |s.tasks| && OpNext(cfg, s, t, it, head, mutex) == Some(s') && Inserting(s.tasks[t].pc)
    ensures Nearer(s, s', t)
  {
  }

  lemma InsertBorder(cfg: Config, s: State, t: nat, it: Item, head: Addr, mutex: nat, s': State)
    requires t < |s.tasks| && OpNext(cfg, s, t, it, head, mutex) == Some(s') && cfg.op == InsertOp
    requires s.tasks[t].pc.Acquire? || s.tasks[t].pc.Locked? || s.tasks[t].pc.Release?
    ensures Nearer(s, s', t)
  {
  }

  lemma InsertStep(cfg: Config, recs0: seq<seq<Rec>>, s: State, g: Ghost, t: nat, s': State)
    requires Inv(cfg, recs0, s, g) && t < |s.tasks| && TaskNext(cfg, s, t) == Some(s')
    requires cfg.op == InsertOp && Working(s.tasks[t].pc) && !s.tasks[t].pc.Fetch?
    ensures Left(cfg, s') < Left(cfg, s)
  {
    hide HeapPart, TasksOk, LocksOk, NodesOk, MemoryPart, LogOk, ResultsOk, PhaseOk, TaskNext, OpNext, Rank, Ahead,
         PcOk, Inserting, CurMutex, BucketOf;
    InsertAhead(cfg, recs0, s, g);
    InsertPcs(cfg, recs0, s, g, t);
    WorkContext(cfg, recs0, s, g, t);
    var k, p := s.tasks[t], |s.tasks|;
    var it, head, mutex := CurItem(cfg, p, t, k), cfg.heads[CurBucket(cfg, p, t, k)], CurMutex(cfg, p, t, k);
    if Inserting(k.pc) {
      InsertInside(cfg, s, t, it, head, mutex, s');
    } else {
      InsertBorder(cfg, s, t, it, head, mutex, s');
    }
    Lower(cfg, s, s', t, s.tasks[t], s'.tasks[t]);
  }

  /** Lookup steps, and the steps of a delete that write nothing. */
  lemma ReadStep(cfg: Config, recs0: seq<seq<Rec>>, s: State, g: Ghost, t: nat, s': State)
    requires Inv(cfg, recs0, s, g) && t < |s.tasks| && Working(s.tasks[t].pc) && s'.mem == s.mem
             && s'.master == s.master
    requires |s'.tasks| == |s.tasks| && s'.tasks == s.tasks[t := s'.tasks[t]]
             && s'.tasks[t].handled == s.tasks[t].handled
    requires Rank(s'.tasks[t].pc, Longest(cfg.op, s.mem), s'.tasks[t].cache != []) + Ahead(s.mem, s'.tasks[t].pc)
             < Rank(s.tasks[t].pc, Longest(cfg.op, s.mem), s.tasks[t].cache != []) + Ahead(s.mem, s.tasks[t].pc)
    ensures Left(cfg, s') < Left(cfg, s)
  {
    hide Inv, Rank, Ahead, Longest;
    Lower(cfg, s, s', t, s.tasks[t], s'.tasks[t]);
  }

  /** A walk gets shorter from node to node. */
  lemma NextIsNearer(mem: Memory, ps: seq<Addr>, c: seq<Rec>, i: nat)
    requires ChainOk(mem, ps, c) && i < |ps| && mem[ps[i]].next != NULL
    ensures mem[ps[i]].next in mem && i + 1 < |ps| && mem[ps[i]].next == ps[i + 1]
    ensures |Walk(mem, mem[mem[ps[i]].next].next)| < |Walk(mem, mem[ps[i]].next)|
  {
    WalkBehind(mem, ps, c, i);
    assert mem[ps[i]].next == LinkAt(ps, i);
    WalkBehind(mem, ps, c, i + 1);
  }

  lemma FindLower(cfg: Config, recs0: seq<seq<Rec>>, s: State, g: Ghost, t: nat, s': State)
    requires Inv(cfg, recs0, s, g) && t < |s.tasks| && TaskNext(cfg, s, t) == Some(s') && s.tasks[t].pc.FindScan?
    ensures Left(cfg, s') < Left(cfg, s)
  {
    hide HeapPart, TasksOk, BucketLocksOk, AllocLockOk, ResLockOk, NodesOk, MemoryPart, LogOk, ResultsOk, PhaseOk,
         TaskNext, TaskOk, ChainOk, Walk, Block;
    WorkContext(cfg, recs0, s, g, t);
    HeadRead(cfg, recs0, s, g, t);
    var k := s.tasks[t];
    var b := CurBucket(cfg, |s.tasks|, t, k);
    var ps, c, key, buf := g.view.chains[b], g.view.recs[b], CurItem(cfg, |s.tasks|, t, k).key, k.pc.buf;
    var i: nat :| FindAt(g.vmem, ps, c, key, i, k.pc.found, buf);
    NotInserting(cfg, recs0, s, g);
    if buf.next != NULL { NextIsNearer(s.mem, ps, c, i); }
    ReadStep(cfg, recs0, s, g, t, s');
  }

  /** A delete's write leaves alone the walks of tasklets in other buckets. */
  lemma OtherWalk(cfg: Config, recs0: seq<seq<Rec>>, s: State, g: Ghost, t: nat, u: nat, a: Addr, e: Entry)
    requires Inv(cfg, recs0, s, g) && cfg.op == DeleteOp && t < |s.tasks| && u < |s.tasks| && u != t
             && HoldsBucket(s.tasks[t].pc)
    requires a in g.view.owner && g.view.owner[a] == CurBucket(cfg, |s.tasks|, t, s.tasks[t])
    ensures Ahead(s.mem[a := e], s.tasks[u].pc) == Ahead(s.mem, s.tasks[u].pc)
  {
    hide HeapPart, TasksOk, BucketLocksOk, AllocLockOk, ResLockOk, NodesOk, MemoryPart, LogOk, ResultsOk, PhaseOk,
         TaskNext, TaskOk, Walk, ChainOk, Block;
    var pc := s.tasks[u].pc;
    if pc.FindScan? || pc.DelRead? || pc.DelScan? {
      WorkContext(cfg, recs0, s, g, u);
      HeadRead(cfg, recs0, s, g, u);
      NotInserting(cfg, recs0, s, g);
      var b := CurBucket(cfg, |s.tasks|, u, s.tasks[u]);
      var ps, c := g.view.chains[b], g.view.recs[b];
      var i: nat := 0;
      if pc.DelScan? {
        var j: nat :| ScanAt(g.vmem, ps, c, CurItem(cfg, |s.tasks|, u, s.tasks[u]).key, j, pc.lastPtr, pc.last, pc.buf);
        i := j;
      }
      Exclusive(cfg, s, t, u);
      ElsewhereInChain(cfg, g, b, a);
      hide PcOk, CurBucket, OpNext;
      WalkBehind(s.mem, ps, c, i);
      ChainFrame(s.mem, s.mem[a := e], ps, c);
      WalkBehind(s.mem[a := e], ps, c, i);
    }
  }

  lemma ElsewhereInChain(cfg: Config, g: Ghost, b: nat, a: Addr)
    requires cfg.size > 0 && HeapPart(cfg, g) && b < |cfg.heads| && a in g.view.owner && g.view.owner[a] != b
    ensures b < |g.view.chains| && forall i :: 0 <= i < |g.view.chains[b]| ==> g.view.chains[b][i] != a
  {
    hide ChainOk, Homed;
  }

  /** A delete's step, with or without a write to its own bucket. */
  lemma DeleteLower(cfg: Config, recs0: seq<seq<Rec>>, s: State, g: Ghost, t: nat, s': State, a: Addr, e: Entry)
    requires Inv(cfg, recs0, s, g) && cfg.op == DeleteOp && t < |s.tasks| && HoldsBucket(s.tasks[t].pc)
    requires a in s.mem && a in g.view.owner && g.view.owner[a] == CurBucket(cfg, |s.tasks|, t, s.tasks[t])
    requires s' == Move(s.(mem := s.mem[a := e]), t, Release(NULL))
    requires s.tasks[t].pc.DelRead? || s.tasks[t].pc.DelCopy? || s.tasks[t].pc.DelScan?
    ensures Left(cfg, s') < Left(cfg, s)
  {
    hide Inv, CurBucket, Walk;
    forall u | 0 <= u < |s.tasks| && u != t ensures Ahead(s.mem[a := e], s.tasks[u].pc) == Ahead(s.mem, s.tasks[u].pc) {
      OtherWalk(cfg, recs0, s, g, t, u, a, e);
    }
    assert s.mem[a := e].Keys == s.mem.Keys;
    Lower(cfg, s, s', t, s.tasks[t], s'.tasks[t]);
  }

  lemma DeleteReadLower(cfg: Config, recs0: seq<seq<Rec>>, s: State, g: Ghost, t: nat, s': State)
    requires Inv(cfg, recs0, s, g) && t < |s.tasks| && TaskNext(cfg, s, t) == Some(s')
    requires s.tasks[t].pc.DelRead? || s.tasks[t].pc.DelCopy?
    ensures Left(cfg, s') < Left(cfg, s)
  {
    hide HeapPart, TasksOk, BucketLocksOk, AllocLockOk, ResLockOk, NodesOk, MemoryPart, LogOk, ResultsOk, PhaseOk,
         TaskNext, TaskOk, ChainOk, HeapOk, Walk, CurItem, BucketOf;
    HeadRead(cfg, recs0, s, g, t);
    var k := s.tasks[t];
    var b, key, buf := CurBucket(cfg, |s.tasks|, t, k), CurItem(cfg, |s.tasks|, t, k).key, k.pc.buf;
    HeapOf(cfg, g);
    HeadOwner(g.vmem, cfg.heads, g.view, b);
    if k.pc.DelCopy? {
      DeleteCopyShape(cfg, recs0, s, g, t, s');
      DeleteLower(cfg, recs0, s, g, t, s', cfg.heads[b], buf);
    } else if buf.next == NULL {
      DeleteHeadShape(cfg, recs0, s, g, t, s');
      if Matches(buf, key) {
        DeleteLower(cfg, recs0, s, g, t, s', cfg.heads[b], buf.(keyLen := 0));
      } else {
        ReadStep(cfg, recs0, s, g, t, s');
      }
    } else {
      DeleteReadOn(cfg, recs0, s, g, t, s');
      ReadStep(cfg, recs0, s, g, t, s');
    }
  }

  /** A delete that reads the node behind the head gets nearer to the chain's end. */
  lemma DeleteReadOn(cfg: Config, recs0: seq<seq<Rec>>, s: State, g: Ghost, t: nat, s': State)
    requires Inv(cfg, recs0, s, g) && t < |s.tasks| && TaskNext(cfg, s, t) == Some(s')
    requires s.tasks[t].pc.DelRead? && s.tasks[t].pc.buf.next != NULL
    ensures s'.mem == s.mem && s'.master == s.master && |s'.tasks| == |s.tasks|
    ensures s'.tasks == s.tasks[t := s.tasks[t].(pc := s'.tasks[t].pc)]
    ensures forall n, pending :: Rank(s'.tasks[t].pc, n, pending) < Rank(s.tasks[t].pc, n, pending)
    ensures Ahead(s.mem, s'.tasks[t].pc) <= Ahead(s.mem, s.tasks[t].pc)
  {
    hide HeapPart, TasksOk, BucketLocksOk, AllocLockOk, ResLockOk, NodesOk, MemoryPart, LogOk, ResultsOk, PhaseOk,
         TaskNext, TaskOk, ChainOk, Walk, Block, CurMutex, BucketOf;
    WorkContext(cfg, recs0, s, g, t);
    HeadRead(cfg, recs0, s, g, t);
    var b := CurBucket(cfg, |s.tasks|, t, s.tasks[t]);
    NotInserting(cfg, recs0, s, g);
    NextIsNearer(s.mem, g.view.chains[b], g.view.recs[b], 0);
  }

  lemma DeleteScanLower(cfg: Config, recs0: seq<seq<Rec>>, s: State, g: Ghost, t: nat, s': State)
    requires Inv(cfg, recs0, s, g) && t < |s.tasks| && TaskNext(cfg, s, t) == Some(s') && s.tasks[t].pc.DelScan?
    ensures Left(cfg, s') < Left(cfg, s)
  {
    hide HeapPart, TasksOk, BucketLocksOk, AllocLockOk, ResLockOk, NodesOk, MemoryPart, LogOk, ResultsOk, PhaseOk,
         TaskNext, TaskOk, ChainOk, Walk, Block;
    WorkContext(cfg, recs0, s, g, t);
    HeadRead(cfg, recs0, s, g, t);
    var k := s.tasks[t];
    var b := CurBucket(cfg, |s.tasks|, t, k);
    var ps, c, key, buf := g.view.chains[b], g.view.recs[b], CurItem(cfg, |s.tasks|, t, k).key, k.pc.buf;
    var i: nat :| ScanAt(g.vmem, ps, c, key, i, k.pc.lastPtr, k.pc.last, buf);
    NotInserting(cfg, recs0, s, g);
    if Matches(buf, key) {
      HeapOf(cfg, g);
      NodeOwner(g.vmem, cfg.heads, g.view, b, i - 1);
      hide HeapOk;
      DeleteLower(cfg, recs0, s, g, t, s', k.pc.lastPtr, k.pc.last.(next := buf.next));
    } else {
      if buf.next != NULL { NextIsNearer(s.mem, ps, c, i); }
      ReadStep(cfg, recs0, s, g, t, s');
    }
  }

  /** Taking the mutex and reading the head. */
  lemma EnterLower(cfg: Config, recs0: seq<seq<Rec>>, s: State, g: Ghost, t: nat, s': State)
    requires Inv(cfg, recs0, s, g) && t < |s.tasks| && TaskNext(cfg, s, t) == Some(s') && cfg.op != InsertOp
    requires s.tasks[t].pc.Acquire? || s.tasks[t].pc.Locked?
    ensures Left(cfg, s') < Left(cfg, s)
  {
    hide HeapPart, TasksOk, BucketLocksOk, AllocLockOk, ResLockOk, NodesOk, MemoryPart, LogOk, ResultsOk, PhaseOk,
         TaskNext, TaskOk, ChainOk, Walk, Block, PcOk, CurMutex, BucketOf;
    WorkContext(cfg, recs0, s, g, t);
    var head := cfg.heads[CurBucket(cfg, |s.tasks|, t, s.tasks[t])];
    if head in s.mem { WalkBounded(s.mem, s.mem[head].next); }
    ReadStep(cfg, recs0, s, g, t, s');
  }

  /** Giving the mutex back and caching an answer. */
  lemma LeaveLower(cfg: Config, recs0: seq<seq<Rec>>, s: State, g: Ghost, t: nat, s': State)
    requires Inv(cfg, recs0, s, g) && t < |s.tasks| && TaskNext(cfg, s, t) == Some(s') && cfg.op != InsertOp
    requires s.tasks[t].pc.Release? || s.tasks[t].pc.Fetch?
    ensures Left(cfg, s') < Left(cfg, s)
  {
    hide HeapPart, TasksOk, BucketLocksOk, AllocLockOk, ResLockOk, NodesOk, MemoryPart, LogOk, ResultsOk, PhaseOk,
         TaskNext, TaskOk, OpNext, Rank, Ahead, Longest, PcOk, CurMutex, BucketOf;
    WorkContext(cfg, recs0, s, g, t);
    var k, p := s.tasks[t], |s.tasks|;
    LeaveRank(cfg, s, t, CurItem(cfg, p, t, k), cfg.heads[CurBucket(cfg, p, t, k)], CurMutex(cfg, p, t, k), s',
              Longest(cfg.op, s.mem));
    ReadStep(cfg, recs0, s, g, t, s');
  }

  lemma LeaveRank(cfg: Config, s: State, t: nat, it: Item, head: Addr, mutex: nat, s': State, n: nat)
    requires t < |s.tasks| && OpNext(cfg, s, t, it, head, mutex) == Some(s')
    requires s.tasks[t].pc.Release? || s.tasks[t].pc.Fetch?
    ensures s'.mem == s.mem && s'.master == s.master && |s'.tasks| == |s.tasks|
    ensures s'.tasks == s.tasks[t := s'.tasks[t]] && s'.tasks[t].handled == s.tasks[t].handled
    ensures Rank(s'.tasks[t].pc, n, s'.tasks[t].cache != []) + Ahead(s.mem, s'.tasks[t].pc) <
            Rank(s.tasks[t].pc, n, s.tasks[t].cache != []) + Ahead(s.mem, s.tasks[t].pc)
  {
  }

  lemma OpAtPc(cfg: Config, recs0: seq<seq<Rec>>, s: State, g: Ghost, t: nat)
    requires Inv(cfg, recs0, s, g) && t < |s.tasks| && Working(s.tasks[t].pc) && cfg.op != InsertOp
    ensures var pc := s.tasks[t].pc;
            pc.Acquire? || pc.Locked? || pc.Release? || pc.Fetch? || pc.DelRead? || pc.DelCopy? || pc.DelScan?
              || pc.FindScan?
  {
    hide HeapPart, TasksOk, LocksOk, NodesOk, MemoryPart, LogOk, ResultsOk, PhaseOk, TaskNext, OpNext, TaskOk, Block;
    WorkContext(cfg, recs0, s, g, t);
  }

  lemma FetchIsLookup(cfg: Config, recs0: seq<seq<Rec>>, s: State, g: Ghost, t: nat)
    requires Inv(cfg, recs0, s, g) && t < |s.tasks| && s.tasks[t].pc.Fetch?
    ensures cfg.op == LookupOp
  {
    hide HeapPart, TasksOk, LocksOk, NodesOk, MemoryPart, LogOk, ResultsOk, PhaseOk, TaskNext, OpNext, TaskOk, Block;
    WorkContext(cfg, recs0, s, g, t);
  }

  /** Every step of every tasklet lowers the measure. */
  lemma StepDecreases(cfg: Config, recs0: seq<seq<Rec>>, s: State, g: Ghost, who: nat, s': State)
    requires Inv(cfg, recs0, s, g) && Step(cfg, s, who) == Some(s')
    ensures Left(cfg, s') < Left(cfg, s)
  {
    hide Inv, TaskNext, TasksLeft;
    if who > 0 {
      hide Left;
      var t, pc := who - 1, s.tasks[who - 1].pc;
      if !Working(pc) {
        OuterStep(cfg, recs0, s, g, t, s');
      } else if cfg.op == InsertOp {
        if pc.Fetch? { FetchIsLookup(cfg, recs0, s, g, t); }
        InsertStep(cfg, recs0, s, g, t, s');
      } else {
        OpAtPc(cfg, recs0, s, g, t);
        if pc.FindScan? {
          FindLower(cfg, recs0, s, g, t, s');
        } else if pc.DelRead? || pc.DelCopy? {
          DeleteReadLower(cfg, recs0, s, g, t, s');
        } else if pc.DelScan? {
          DeleteScanLower(cfg, recs0, s, g, t, s');
        } else {
          if pc.Acquire? || pc.Locked? {
            EnterLower(cfg, recs0, s, g, t, s');
          } else {
            LeaveLower(cfg, recs0, s, g, t, s');
          }
        }
      }
    }
  }

  // --- Whole runs ---------------------------------------------------------------------------

  lemma {:induction false} RunBounded(cfg: Config, recs0: seq<seq<Rec>>, run: seq<State>, who: seq<nat>, g: Ghost,
                                      n: nat)
    returns (g': Ghost)
    requires IsRun(cfg, run, who) && n < |run| && Inv(cfg, recs0, run[0], g)
    ensures Inv(cfg, recs0, run[n], g') && Left(cfg, run[n]) + n <= Left(cfg, run[0])
  {
    hide Inv, Step, Left;
    if n == 0 {
      g' := g;
    } else {
      g' := RunBounded(cfg, recs0, run, who, g, n - 1);
      StepDecreases(cfg, recs0, run[n - 1], g', who[n - 1], run[n]);
      g' := StepKeepsInv(cfg, recs0, run[n - 1], g', who[n - 1], run[n]);
    }
  }

  lemma {:induction false} LeftAtLaunch(cfg: Config, mem: Memory, tasks: seq<Task>, n: nat)
    requires n <= |tasks| && |tasks| > 0 && forall t :: 0 <= t < |tasks| ==> tasks[t] == Task(AtStart, 0, [])
    ensures TasksLeft(cfg, mem, tasks, n) == BlockLow(n, |tasks|, |cfg.items|) * (Longest(cfg.op, mem) + 30) + 6 * n
  {
    BlockLowMonotone(n, n, |tasks|, |cfg.items|);
    hide Longest, BlockLow;
    if n > 0 {
      LeftAtLaunch(cfg, mem, tasks, n - 1);
      TaskAtLaunch(cfg, mem, |tasks|, n - 1);
      SumOfProducts(BlockLow(n - 1, |tasks|, |cfg.items|), BlockLow(n, |tasks|, |cfg.items|),
                    Longest(cfg.op, mem) + 30);
    }
  }

  lemma TaskAtLaunch(cfg: Config, mem: Memory, p: nat, t: nat)
    requires t < p
    ensures TaskLeft(cfg, mem, p, t, Task(AtStart, 0, [])) ==
            (BlockLow(t + 1, p, |cfg.items|) - BlockLow(t, p, |cfg.items|)) * (Longest(cfg.op, mem) + 30) + 6
  {
    hide Longest, BlockLow;
  }

  lemma SumOfProducts(lo: nat, hi: nat, l: nat)
    ensures lo * l + (hi - lo) * l == hi * l
  {
  }

  /** Every run of a launch is bounded, under every schedule: per element at most a constant number of steps, plus one
      per entry in memory for a lookup or a delete. No tasklet loops forever. */
  lemma EveryRunIsBounded(cfg: Config, run: seq<State>, who: seq<nat>, view: View)
    requires IsRun(cfg, run, who) && Ready(cfg, run[0], view)
    ensures |who| <= |cfg.items| * ((if cfg.op == InsertOp then 0 else |run[0].mem|) + 30) + 6 * |run[0].tasks| + 5
  {
    hide Inv, Step, HeapOk, Homed;
    LaunchInv(cfg, run[0], view);
    assert Longest(cfg.op, run[0].mem) == if cfg.op == InsertOp then 0 else |run[0].mem|;
    hide Longest;
    var g := RunBounded(cfg, view.recs, run, who, InitialGhost(run[0], view), |who|);
    LeftNonNegative(cfg, view.recs, run[|who|], g);
    LeftAtLaunch(cfg, run[0].mem, run[0].tasks, |run[0].tasks|);
    BlockLowMonotone(0, 0, |run[0].tasks|, |cfg.items|);
  }

  /** From every reachable state the launch can be run to its end. */
  lemma {:induction false} RunToEnd(cfg: Config, recs0: seq<seq<Rec>>, s: State, g: Ghost)
    returns (run: seq<State>, who: seq<nat>)
    requires Inv(cfg, recs0, s, g)
    ensures IsRun(cfg, run, who) && run[0] == s && AllDone(run[|who|])
    decreases Left(cfg, s) + 1
  {
    hide Inv, Step, Left, AllDone;
    LeftNonNegative(cfg, recs0, s, g);
    if AllDone(s) {
      run, who := [s], [];
    } else {
      var t := Progress(cfg, recs0, s, g);
      var s' := Step(cfg, s, t).value;
      StepDecreases(cfg, recs0, s, g, t, s');
      var g' := StepKeepsInv(cfg, recs0, s, g, t, s');
      LeftNonNegative(cfg, recs0, s', g');
      var rest, next := RunToEnd(cfg, recs0, s', g');
      run, who := [s] + rest, [t] + next;
    }
  }

  /** Every launch that is ready has a run to its end. */
  lemma LaunchFinishes(cfg: Config, s: State, view: View) returns (run: seq<State>, who: seq<nat>)
    requires Ready(cfg, s, view)
    ensures IsRun(cfg, run, who) && run[0] == s && AllDone(run[|who|])
  {
    LaunchInv(cfg, s, view);
    run, who := RunToEnd(cfg, view.recs, s, InitialGhost(s, view));
  }
}
