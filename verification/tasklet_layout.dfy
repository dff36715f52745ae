/** Where a launch puts its entries: whatever the interleaving, entries never overlap, stay below the allocator's
    next address and leave the space of later indexes alone. */
module TaskletLayout {
  import opened Util
  import opened Entries
  import opened ChainHeap
  import opened PrimaryIndex
  import opened Tasklets
  import opened TaskletInvariant
  import opened TaskletFrames
  import opened TaskletSteps
  import opened TaskletLocks
  import opened TaskletRuns
  import opened TaskletTheorems

  /** Entries lie apart from each other and outside the space from `free` to `start`, and nodes handed out but not
      yet written lie behind it. */
  ghost predicate Spread(s: State, free: Addr, start: Addr) {
    && start <= s.cur
    && (forall a, b :: a in s.mem && b in s.mem && a < b ==> a + ENTRY_SIZE <= b)
    && (forall a :: a in s.mem ==> a == NULL || (ENTRY_SIZE <= a && (a + ENTRY_SIZE <= free || start <= a)))
    && (forall t :: 0 <= t < |s.tasks| && HasNode(s.tasks[t].pc) ==> start <= s.tasks[t].pc.node)
  }

  /** What a step may do to the addresses in use. */
  ghost predicate Grows(s: State, s': State, t: nat)
    requires t < |s.tasks|
  {
    var pc := s.tasks[t].pc;
    && |s'.tasks| == |s.tasks| && s'.tasks == s.tasks[t := s'.tasks[t]] && s.cur <= s'.cur
    && s'.mem.Keys == s.mem.Keys + (if pc.InsFill? then {pc.node} else {})
    && (HasNode(s'.tasks[t].pc) ==> (HasNode(pc) || pc.InsAllocCur?) && s'.tasks[t].pc.node == pc.node)
  }

  lemma AllocGrows(cfg: Config, s: State, t: nat, it: Item, head: Addr, mutex: nat, s': State)
    requires t < |s.tasks| && OpNext(cfg, s, t, it, head, mutex) == Some(s')
    requires var pc := s.tasks[t].pc; pc.InsAllocHeld? || pc.InsAllocCur? || pc.InsAllocAvail? || pc.InsAllocDone?
    requires s.tasks[t].pc.InsAllocHeld? ==> s.avail >= ENTRY_SIZE
    ensures Grows(s, s', t)
  {
    hide Matches, Filled, StoreKey;
  }

  lemma InsertGrows(cfg: Config, s: State, t: nat, it: Item, head: Addr, mutex: nat, s': State)
    requires t < |s.tasks| && OpNext(cfg, s, t, it, head, mutex) == Some(s')
    requires s.tasks[t].pc.InsRead? || s.tasks[t].pc.InsLink? || s.tasks[t].pc.InsFill?
    requires s.tasks[t].pc.InsFill? || head in s.mem
    ensures Grows(s, s', t)
  {
    hide Matches, Filled, StoreKey;
  }

  lemma DeleteGrows(cfg: Config, s: State, t: nat, it: Item, head: Addr, mutex: nat, s': State)
    requires t < |s.tasks| && OpNext(cfg, s, t, it, head, mutex) == Some(s')
    requires s.tasks[t].pc.DelRead? || s.tasks[t].pc.DelCopy? || s.tasks[t].pc.DelScan?
    requires head in s.mem && (s.tasks[t].pc.DelScan? ==> s.tasks[t].pc.lastPtr in s.mem)
    ensures Grows(s, s', t)
  {
    hide Matches, Filled, StoreKey;
  }

  lemma ReadGrows(cfg: Config, s: State, t: nat, it: Item, head: Addr, mutex: nat, s': State)
    requires t < |s.tasks| && OpNext(cfg, s, t, it, head, mutex) == Some(s')
    requires var pc := s.tasks[t].pc; pc.Acquire? || pc.Locked? || pc.FindScan? || pc.Release? || pc.Fetch?
    ensures Grows(s, s', t)
  {
    hide Matches, Filled, StoreKey;
  }

  lemma OpGrows(cfg: Config, s: State, t: nat, it: Item, head: Addr, mutex: nat, s': State)
    requires t < |s.tasks| && OpNext(cfg, s, t, it, head, mutex) == Some(s')
    requires HoldsBucket(s.tasks[t].pc)
    requires s.tasks[t].pc.InsAllocHeld? ==> s.avail >= ENTRY_SIZE
    requires s.tasks[t].pc.InsFill? || head in s.mem
    requires s.tasks[t].pc.DelScan? ==> s.tasks[t].pc.lastPtr in s.mem
    ensures Grows(s, s', t)
  {
    hide Matches, Filled, StoreKey, OpNext, Grows;
    var pc := s.tasks[t].pc;
    if HoldsAlloc(pc) {
      AllocGrows(cfg, s, t, it, head, mutex, s');
    } else if pc.InsRead? || pc.InsLink? || pc.InsFill? {
      InsertGrows(cfg, s, t, it, head, mutex, s');
    } else if pc.DelRead? || pc.DelCopy? || pc.DelScan? {
      DeleteGrows(cfg, s, t, it, head, mutex, s');
    } else {
      ReadGrows(cfg, s, t, it, head, mutex, s');
    }
  }

  /** The addresses a step inside a bucket writes are in use already, but for a new node. */
  lemma WorkGrows(cfg: Config, recs0: seq<seq<Rec>>, s: State, g: Ghost, t: nat, s': State)
    requires Inv(cfg, recs0, s, g) && t < |s.tasks| && TaskNext(cfg, s, t) == Some(s')
    requires HoldsBucket(s.tasks[t].pc)
    ensures Grows(s, s', t)
  {
    hide HeapPart, TasksOk, BucketLocksOk, AllocLockOk, ResLockOk, NodesOk, MemoryPart, LogOk, ResultsOk, PhaseOk,
         TaskNext, TaskOk, OpNext, Grows, ChainOk, CurItem, CurMutex, BucketOf;
    WorkContext(cfg, recs0, s, g, t);
    var k, p := s.tasks[t], |s.tasks|;
    var b := CurBucket(cfg, p, t, k);
    if !k.pc.InsFill? { HeadRead(cfg, recs0, s, g, t); }
    if k.pc.InsAllocHeld? { SpaceLeft(cfg, recs0, s, g, t); }
    if k.pc.DelScan? {
      var i: nat :| ScanAt(g.vmem, g.view.chains[b], g.view.recs[b], CurItem(cfg, p, t, k).key, i, k.pc.lastPtr,
                           k.pc.last, k.pc.buf);
      CleanRead(cfg, s, g, t, i - 1);
    }
    OpGrows(cfg, s, t, CurItem(cfg, p, t, k), cfg.heads[b], CurMutex(cfg, p, t, k), s');
  }

  lemma OuterGrows(cfg: Config, s: State, t: nat, s': State)
    requires t < |s.tasks| && TaskNext(cfg, s, t) == Some(s') && !Working(s.tasks[t].pc)
    ensures Grows(s, s', t)
  {
    hide OpNext, Block, AllArrived1, AllArrived2, Overlay, LocalBucket;
  }

  lemma TaskGrows(cfg: Config, recs0: seq<seq<Rec>>, s: State, g: Ghost, t: nat, s': State)
    requires Inv(cfg, recs0, s, g) && t < |s.tasks| && TaskNext(cfg, s, t) == Some(s')
    ensures Grows(s, s', t)
  {
    hide Inv, TaskNext, OpNext, Grows, CurItem, CurMutex, BucketOf;
    var pc := s.tasks[t].pc;
    if !Working(pc) {
      OuterGrows(cfg, s, t, s');
    } else if HoldsBucket(pc) {
      WorkGrows(cfg, recs0, s, g, t, s');
    } else {
      WorkContext(cfg, recs0, s, g, t);
      var k, p := s.tasks[t], |s.tasks|;
      ConfigIsOk(cfg, recs0, s, g);
      ReadGrows(cfg, s, t, CurItem(cfg, p, t, k), cfg.heads[CurBucket(cfg, p, t, k)], CurMutex(cfg, p, t, k), s');
    }
  }

  lemma ConfigIsOk(cfg: Config, recs0: seq<seq<Rec>>, s: State, g: Ghost)
    requires Inv(cfg, recs0, s, g)
    ensures ConfigOk(cfg)
  {
  }

  /** What the invariant says of the addresses in use and of nodes handed out. */
  lemma NodesApart(cfg: Config, recs0: seq<seq<Rec>>, s: State, g: Ghost)
    requires Inv(cfg, recs0, s, g)
    ensures forall a :: a in s.mem ==> a + ENTRY_SIZE <= s.cur
    ensures forall t, a :: 0 <= t < |s.tasks| && HasNode(s.tasks[t].pc) && a in s.mem ==> Apart(s.tasks[t].pc.node, a)
    ensures forall t :: 0 <= t < |s.tasks| && HasNode(s.tasks[t].pc) ==> ENTRY_SIZE <= s.tasks[t].pc.node
    ensures forall t :: 0 <= t < |s.tasks| && s.tasks[t].pc.InsAllocCur? ==> s.tasks[t].pc.node == s.cur
  {
    hide HeapPart, TasksOk, LocksOk, LogOk, ResultsOk, PhaseOk, DirtyOk, LinkedOk, Apart, RealAvail, TotalDemand;
  }

  lemma GrownSpread(s: State, s': State, t: nat, free: Addr, start: Addr)
    requires t < |s.tasks| && Spread(s, free, start) && Grows(s, s', t)
    requires forall a :: a in s.mem && HasNode(s.tasks[t].pc) ==> Apart(s.tasks[t].pc.node, a)
    requires HasNode(s.tasks[t].pc) ==> ENTRY_SIZE <= s.tasks[t].pc.node
    requires s.tasks[t].pc.InsAllocCur? ==> s.tasks[t].pc.node == s.cur
    ensures Spread(s', free, start)
  {
  }

  /** Every step of every tasklet keeps entries apart and in their place. */
  lemma StepKeepsSpread(cfg: Config, recs0: seq<seq<Rec>>, s: State, g: Ghost, who: nat, s': State, free: Addr,
                        start: Addr)
    requires Inv(cfg, recs0, s, g) && Step(cfg, s, who) == Some(s') && Spread(s, free, start)
    ensures Spread(s', free, start)
  {
    hide Inv, TaskNext, Grows, HasNode, Apart;
    if who == 0 {
      assert s'.mem == s.mem && s'.cur == s.cur && s'.tasks == s.tasks;
    } else {
      hide Spread;
      TaskGrows(cfg, recs0, s, g, who - 1, s');
      NodesApart(cfg, recs0, s, g);
      GrownSpread(s, s', who - 1, free, start);
    }
  }

  lemma {:induction false} RunKeepsSpread(cfg: Config, recs0: seq<seq<Rec>>, run: seq<State>, who: seq<nat>, g: Ghost,
                                          n: nat, free: Addr, start: Addr)
    returns (g': Ghost)
    requires IsRun(cfg, run, who) && n < |run| && Inv(cfg, recs0, run[0], g) && Spread(run[0], free, start)
    ensures Inv(cfg, recs0, run[n], g') && Spread(run[n], free, start)
  {
    hide Inv, Step, Spread;
    if n == 0 {
      g' := g;
    } else {
      g' := RunKeepsSpread(cfg, recs0, run, who, g, n - 1, free, start);
      StepKeepsSpread(cfg, recs0, run[n - 1], g', who[n - 1], run[n], free, start);
      g' := StepKeepsInv(cfg, recs0, run[n - 1], g', who[n - 1], run[n]);
    }
  }

  /** In every state of every run of a launch the entries in memory do not overlap, end below the allocator's next
      address, and leave the space set aside for later indexes alone. */
  lemma EntriesStayApart(cfg: Config, run: seq<State>, who: seq<nat>, view: View, n: nat, free: Addr, start: Addr)
    requires IsRun(cfg, run, who) && Ready(cfg, run[0], view) && n < |run| && start <= run[0].cur
    requires Packed(run[0].mem, free, start, run[0].cur)
    ensures Packed(run[n].mem, free, start, run[n].cur) && run[0].cur <= run[n].cur
  {
    hide Inv, Step, HeapOk, Homed, Ready;
    StartSpread(cfg, run[0], view, free, start);
    LaunchInv(cfg, run[0], view);
    var g := RunKeepsSpread(cfg, view.recs, run, who, InitialGhost(run[0], view), n, free, start);
    NodesApart(cfg, view.recs, run[n], g);
    var _ := RunKeepsSpread(cfg, view.recs, run, who, InitialGhost(run[0], view), n, run[0].cur, run[0].cur);
  }

  lemma StartSpread(cfg: Config, s: State, view: View, free: Addr, start: Addr)
    requires Ready(cfg, s, view) && start <= s.cur && Packed(s.mem, free, start, s.cur)
    ensures Spread(s, free, start) && Spread(s, s.cur, s.cur)
  {
    hide HeapOk, Homed;
  }
}
