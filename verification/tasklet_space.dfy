/** How much allocator space a launch uses: a launch with some space put aside runs just as well without it. */
module TaskletSpace {
  import opened Util
  import opened Entries
  import opened ChainHeap
  import opened IndexLayout
  import opened Tasklets
  import opened TaskletInvariant
  import opened TaskletLocks
  import opened TaskletRuns
  import opened TaskletTheorems
  import opened TaskletProgress
  import opened TaskletTermination

  /** The same state with `r` bytes of the allocator put aside. */
  function Aside(s: State, r: nat): State
    requires s.avail >= r
  {
    s.(avail := s.avail - r)
  }

  /** The two steps that look at or change the space left. */
  predicate LooksAtSpace(pc: Pc) {
    pc.InsAllocHeld? || pc.InsAllocAvail?
  }

  lemma AsideAllocator(cfg: Config, s: State, t: nat, it: Item, head: Addr, mutex: nat, s': State, r: nat)
    requires t < |s.tasks| && s.avail >= r && OpNext(cfg, s, t, it, head, mutex) == Some(s')
    requires LooksAtSpace(s.tasks[t].pc) && s.avail - r >= ENTRY_SIZE
    ensures s'.avail >= r && OpNext(cfg, Aside(s, r), t, it, head, mutex) == Some(Aside(s', r))
  {
    hide Matches, Filled, StoreKey;
  }

  lemma AsideInsert(cfg: Config, s: State, t: nat, it: Item, head: Addr, mutex: nat, s': State, r: nat)
    requires t < |s.tasks| && s.avail >= r && OpNext(cfg, s, t, it, head, mutex) == Some(s')
    requires var pc := s.tasks[t].pc; pc.InsRead? || pc.InsLink? || pc.InsFill?
    ensures s'.avail >= r && OpNext(cfg, Aside(s, r), t, it, head, mutex) == Some(Aside(s', r))
  {
    hide Matches, Filled, StoreKey;
  }

  lemma AsideNode(cfg: Config, s: State, t: nat, it: Item, head: Addr, mutex: nat, s': State, r: nat)
    requires t < |s.tasks| && s.avail >= r && OpNext(cfg, s, t, it, head, mutex) == Some(s')
    requires var pc := s.tasks[t].pc; pc.InsAllocCur? || pc.InsAllocDone?
    ensures s'.avail >= r && OpNext(cfg, Aside(s, r), t, it, head, mutex) == Some(Aside(s', r))
  {
    hide Matches, Filled, StoreKey;
  }

  lemma AsideDelete(cfg: Config, s: State, t: nat, it: Item, head: Addr, mutex: nat, s': State, r: nat)
    requires t < |s.tasks| && s.avail >= r && OpNext(cfg, s, t, it, head, mutex) == Some(s')
    requires var pc := s.tasks[t].pc; pc.DelRead? || pc.DelCopy? || pc.DelScan?
    ensures s'.avail >= r && OpNext(cfg, Aside(s, r), t, it, head, mutex) == Some(Aside(s', r))
  {
    hide Matches, Filled, StoreKey;
  }

  lemma AsideLookup(cfg: Config, s: State, t: nat, it: Item, head: Addr, mutex: nat, s': State, r: nat)
    requires t < |s.tasks| && s.avail >= r && OpNext(cfg, s, t, it, head, mutex) == Some(s')
    requires var pc := s.tasks[t].pc; pc.FindScan? || pc.Fetch?
    ensures s'.avail >= r && OpNext(cfg, Aside(s, r), t, it, head, mutex) == Some(Aside(s', r))
  {
    hide Matches, Filled, StoreKey;
  }

  lemma AsideMutex(cfg: Config, s: State, t: nat, it: Item, head: Addr, mutex: nat, s': State, r: nat)
    requires t < |s.tasks| && s.avail >= r && OpNext(cfg, s, t, it, head, mutex) == Some(s')
    requires var pc := s.tasks[t].pc; pc.Acquire? || pc.Locked? || pc.Release?
    ensures s'.avail >= r && OpNext(cfg, Aside(s, r), t, it, head, mutex) == Some(Aside(s', r))
  {
    hide Matches, Filled, StoreKey;
  }

  lemma AsideOp(cfg: Config, s: State, t: nat, it: Item, head: Addr, mutex: nat, s': State, r: nat)
    requires t < |s.tasks| && s.avail >= r && OpNext(cfg, s, t, it, head, mutex) == Some(s') && Working(s.tasks[t].pc)
    requires LooksAtSpace(s.tasks[t].pc) ==> s.avail - r >= ENTRY_SIZE
    ensures s'.avail >= r && OpNext(cfg, Aside(s, r), t, it, head, mutex) == Some(Aside(s', r))
  {
    hide OpNext;
    var pc := s.tasks[t].pc;
    if LooksAtSpace(pc) {
      AsideAllocator(cfg, s, t, it, head, mutex, s', r);
    } else if pc.DelRead? || pc.DelCopy? || pc.DelScan? {
      AsideDelete(cfg, s, t, it, head, mutex, s', r);
    } else if pc.FindScan? || pc.Fetch? {
      AsideLookup(cfg, s, t, it, head, mutex, s', r);
    } else if pc.Acquire? || pc.Locked? || pc.Release? {
      AsideMutex(cfg, s, t, it, head, mutex, s', r);
    } else if pc.InsAllocCur? || pc.InsAllocDone? {
      AsideNode(cfg, s, t, it, head, mutex, s', r);
    } else {
      AsideInsert(cfg, s, t, it, head, mutex, s', r);
    }
  }

  lemma AsideArrived(s: State, r: nat)
    requires s.avail >= r
    ensures AllArrived1(Aside(s, r)) == AllArrived1(s) && AllArrived2(Aside(s, r)) == AllArrived2(s)
  {
  }

  lemma AsideBarrier(cfg: Config, s: State, t: nat, s': State, r: nat)
    requires t < |s.tasks| && s.avail >= r && TaskNext(cfg, s, t) == Some(s')
    requires var pc := s.tasks[t].pc; pc.AtStart? || pc.AtBarrier1? || pc.AtBarrier2? || pc.Next?
    ensures s'.avail >= r && TaskNext(cfg, Aside(s, r), t) == Some(Aside(s', r))
  {
    hide OpNext, Block, Overlay, AllArrived1, AllArrived2, LocalBucket;
    AsideArrived(s, r);
  }

  lemma AsideFlushLock(cfg: Config, s: State, t: nat, s': State, r: nat)
    requires t < |s.tasks| && s.avail >= r && TaskNext(cfg, s, t) == Some(s')
    requires s.tasks[t].pc.WantFlush? || s.tasks[t].pc.FlushDone?
    ensures s'.avail >= r && TaskNext(cfg, Aside(s, r), t) == Some(Aside(s', r))
  {
    hide OpNext, Block, Overlay, AllArrived1, AllArrived2, LocalBucket;
  }

  lemma AsideFlushWrite(cfg: Config, s: State, t: nat, s': State, r: nat)
    requires t < |s.tasks| && s.avail >= r && TaskNext(cfg, s, t) == Some(s')
    requires s.tasks[t].pc.FlushHeld? || s.tasks[t].pc.FlushWritten?
    ensures s'.avail >= r && TaskNext(cfg, Aside(s, r), t) == Some(Aside(s', r))
  {
    hide OpNext, Block, Overlay, AllArrived1, AllArrived2, LocalBucket;
  }

  lemma AsideOuter(cfg: Config, s: State, t: nat, s': State, r: nat)
    requires t < |s.tasks| && s.avail >= r && TaskNext(cfg, s, t) == Some(s') && !Working(s.tasks[t].pc)
    ensures s'.avail >= r && TaskNext(cfg, Aside(s, r), t) == Some(Aside(s', r))
  {
    assert !s.tasks[t].pc.Finished?;
    hide TaskNext;
    var pc := s.tasks[t].pc;
    if pc.WantFlush? || pc.FlushDone? {
      AsideFlushLock(cfg, s, t, s', r);
    } else if pc.FlushHeld? || pc.FlushWritten? {
      AsideFlushWrite(cfg, s, t, s', r);
    } else {
      AsideBarrier(cfg, s, t, s', r);
    }
  }

  lemma AsideWorking(cfg: Config, s: State, t: nat, s': State, r: nat)
    requires t < |s.tasks| && s.avail >= r && TaskNext(cfg, s, t) == Some(s') && Working(s.tasks[t].pc)
    requires LooksAtSpace(s.tasks[t].pc) ==> s.avail - r >= ENTRY_SIZE
    ensures s'.avail >= r && TaskNext(cfg, Aside(s, r), t) == Some(Aside(s', r))
  {
    hide OpNext, Block, Overlay, AllArrived1, AllArrived2, LooksAtSpace;
    var it := Block(s.batch, |s.tasks|, t)[s.tasks[t].handled - 1];
    var local := LocalBucket(it.key, cfg.size);
    AsideOp(cfg, s, t, it, cfg.heads[BucketAt(s.index.value, cfg.size, local)], cfg.pool[local], s', r);
  }

  lemma AsideTask(cfg: Config, s: State, t: nat, s': State, r: nat)
    requires t < |s.tasks| && s.avail >= r && TaskNext(cfg, s, t) == Some(s')
    requires LooksAtSpace(s.tasks[t].pc) ==> s.avail - r >= ENTRY_SIZE
    ensures s'.avail >= r && TaskNext(cfg, Aside(s, r), t) == Some(Aside(s', r))
  {
    hide TaskNext;
    if Working(s.tasks[t].pc) { AsideWorking(cfg, s, t, s', r); } else { AsideOuter(cfg, s, t, s', r); }
  }

  lemma AsideStep(cfg: Config, s: State, who: nat, s': State, r: nat)
    requires s.avail >= r && Step(cfg, s, who) == Some(s')
    requires who > 0 && LooksAtSpace(s.tasks[who - 1].pc) ==> s.avail - r >= ENTRY_SIZE
    ensures s'.avail >= r && Step(cfg, Aside(s, r), who) == Some(Aside(s', r))
  {
    hide TaskNext;
    if who > 0 {
      AsideTask(cfg, s, who - 1, s', r);
    } else {
      AsideArrived(s, r);
    }
  }

  /** A tasklet that looks at the space finds room for its node. */
  lemma LooksAndFinds(cfg: Config, recs0: seq<seq<Rec>>, s: State, g: Ghost, t: nat)
    requires Inv(cfg, recs0, s, g) && t < |s.tasks| && LooksAtSpace(s.tasks[t].pc)
    ensures s.avail >= ENTRY_SIZE
  {
    hide Inv;
    if cfg.op != InsertOp { OpAtPc(cfg, recs0, s, g, t); }
    if s.tasks[t].pc.InsAllocHeld? { SpaceLeft(cfg, recs0, s, g, t); } else { SpaceBooked(cfg, recs0, s, g, t); }
  }

  lemma {:induction false} RunAside(cfg: Config, recs0: seq<seq<Rec>>, run: seq<State>, who: seq<nat>, g: Ghost,
                                    r: nat, n: nat)
    returns (g': Ghost)
    requires IsRun(cfg, run, who) && n < |run| && run[0].avail >= r && Inv(cfg, recs0, Aside(run[0], r), g)
    ensures run[n].avail >= r && Inv(cfg, recs0, Aside(run[n], r), g')
  {
    hide Inv, Step;
    if n == 0 {
      g' := g;
    } else {
      g' := RunAside(cfg, recs0, run, who, g, r, n - 1);
      var s, t := run[n - 1], who[n - 1];
      assert Step(cfg, s, t) == Some(run[n]);
      StepOfTask(cfg, s, t);
      if t > 0 && LooksAtSpace(s.tasks[t - 1].pc) { LooksAndFinds(cfg, recs0, Aside(s, r), g', t - 1); }
      AsideStep(cfg, s, t, run[n], r);
      g' := StepKeepsInv(cfg, recs0, Aside(s, r), g', t, Aside(run[n], r));
    }
  }

  lemma StepOfTask(cfg: Config, s: State, who: nat)
    requires Step(cfg, s, who).Some?
    ensures who <= |s.tasks|
  {
  }

  /** Bytes a batch may take from the allocator. */
  function Cost(op: OpType, items: seq<Item>): nat {
    if op == InsertOp then ENTRY_SIZE * |items| else 0
  }

  /** In every state of every run of a launch at most one node per inserted element has been taken. */
  lemma SpaceUsed(cfg: Config, run: seq<State>, who: seq<nat>, view: View, n: nat)
    requires IsRun(cfg, run, who) && Ready(cfg, run[0], view) && n < |run|
    ensures run[n].avail >= run[0].avail - Cost(cfg.op, cfg.items)
    ensures Cost(cfg.op, cfg.items) == if cfg.op == InsertOp then 40 * |cfg.items| else 0
  {
    hide Inv, Step, HeapOk, Homed;
    var r := run[0].avail - Cost(cfg.op, cfg.items);
    assert Ready(cfg, Aside(run[0], r), view);
    LaunchInv(cfg, Aside(run[0], r), view);
    var g := RunAside(cfg, view.recs, run, who, InitialGhost(Aside(run[0], r), view), r, n);
  }
}
