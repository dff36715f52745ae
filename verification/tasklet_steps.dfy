/** Every step of every tasklet keeps the launch invariant. */
module TaskletSteps {
  import opened Util
  import opened Entries
  import opened BucketSpec
  import opened ChainHeap
  import opened PrimaryIndex
  import opened Tasklets
  import opened TaskletInvariant
  import opened TaskletFrames

  // --- Steps that change nothing but what the tasklet knows ---------------------------------

  /** A step inside the bucket that writes nothing and takes no effect. */
  lemma QuietWork(cfg: Config, recs0: seq<seq<Rec>>, s: State, g: Ghost, t: nat, pc: Pc)
    requires Inv(cfg, recs0, s, g) && t < |s.tasks|
    requires HoldsBucket(s.tasks[t].pc) && HoldsBucket(pc)
    requires HoldsAlloc(pc) == HoldsAlloc(s.tasks[t].pc)
    requires !pc.InsAllocCur? && !HasNode(pc) && !s.tasks[t].pc.InsAllocAvail? && !s.tasks[t].pc.InsFill?
    requires !pc.InsAllocHeld? && !pc.Locked? && (pc.InsRead? ==> s.tasks[t].pc.Locked?)
    requires cfg.op == LookupOp || pc.Release? == s.tasks[t].pc.Release?
    requires var b := CurBucket(cfg, |s.tasks|, t, s.tasks[t]);
             b < |g.view.chains| && b < |g.view.recs|
             && PcOk(cfg.op, g.vmem, g.view.chains[b], g.view.recs[b], CurItem(cfg, |s.tasks|, t, s.tasks[t]).key, pc)
    ensures Inv(cfg, recs0, Move(s, t, pc), g)
  {
    hide HeapPart, LocksOk, NodesOk, MemoryPart, LogOk, ResultsOk, PhaseOk, PcOk;
    var k, s' := s.tasks[t], Move(s, t, pc);
    var k' := k.(pc := pc);
    assert TaskOk(cfg, g.vmem, g.view, |s.tasks|, t, k);
    assert TaskOk(cfg, g.vmem, g.view, |s.tasks|, t, k');
    hide TaskOk, TasksOk;
    KeepTasks(cfg, s, s', g, g, t, k, k');
    KeepLocks(cfg, s, s', t, k, k');
    KeepNodes(cfg, s, s', g, g, t, k, k');
    KeepMemory(cfg, s, s', g, g, t, k, k');
    KeepLog(cfg, recs0, s, s', g, g, t, k, k');
    KeepResults(cfg, recs0, s, s', g, g, t, k, k');
    KeepPhase(cfg, s, s', t, k, k');
  }

  /** The element, bucket, head and mutex the step function computes are those of the invariant. */
  lemma WorkContext(cfg: Config, recs0: seq<seq<Rec>>, s: State, g: Ghost, t: nat)
    requires Inv(cfg, recs0, s, g) && t < |s.tasks| && Working(s.tasks[t].pc)
    ensures CurBucket(cfg, |s.tasks|, t, s.tasks[t]) < |g.view.chains|
    ensures CurBucket(cfg, |s.tasks|, t, s.tasks[t]) < |g.view.recs|
    ensures PcOk(cfg.op, g.vmem, g.view.chains[CurBucket(cfg, |s.tasks|, t, s.tasks[t])],
                 g.view.recs[CurBucket(cfg, |s.tasks|, t, s.tasks[t])], CurItem(cfg, |s.tasks|, t, s.tasks[t]).key,
                   s.tasks[t].pc)
    ensures s.index == FindIndex(cfg.descs, cfg.id) && s.index.Some? && s.batch == cfg.items
    ensures 1 <= s.tasks[t].handled <= |Block(s.batch, |s.tasks|, t)|
    ensures CurBucket(cfg, |s.tasks|, t, s.tasks[t]) < |cfg.heads|
    ensures TaskNext(cfg, s, t) ==
            OpNext(cfg, s, t, CurItem(cfg, |s.tasks|, t, s.tasks[t]),
                   cfg.heads[CurBucket(cfg, |s.tasks|, t, s.tasks[t])], CurMutex(cfg, |s.tasks|, t, s.tasks[t]))
  {
    hide HeapOk, Homed, LocksOk, NodesOk, MemoryPart, LogOk, ResultsOk, PcOk, OpNext, Block, LocalBucket;
    assert TaskOk(cfg, g.vmem, g.view, |s.tasks|, t, s.tasks[t]);
    assert AllArrived1(s);
    HeapSizes(g.vmem, cfg.heads, g.view);
  }

  /** The head of the bucket a tasklet is in, read cleanly. */
  lemma HeadRead(cfg: Config, recs0: seq<seq<Rec>>, s: State, g: Ghost, t: nat)
    requires Inv(cfg, recs0, s, g) && t < |s.tasks|
    requires HoldsBucket(s.tasks[t].pc) && !s.tasks[t].pc.InsFill?
    ensures var b := CurBucket(cfg, |s.tasks|, t, s.tasks[t]);
            && b < |cfg.heads| == |g.view.chains| == |g.view.recs|
            && ChainOk(g.vmem, g.view.chains[b], g.view.recs[b]) && g.view.chains[b][0] == cfg.heads[b]
            && cfg.heads[b] in s.mem && cfg.heads[b] in g.vmem && s.mem[cfg.heads[b]] == g.vmem[cfg.heads[b]]
            && cfg.heads[b] !in g.dirty && cfg.heads[b] != NULL
  {
    assert TaskOk(cfg, g.vmem, g.view, |s.tasks|, t, s.tasks[t]);
    CleanRead(cfg, s, g, t, 0);
  }

  lemma ReadHeadStep(cfg: Config, recs0: seq<seq<Rec>>, s: State, g: Ghost, t: nat, s': State)
    requires Inv(cfg, recs0, s, g) && t < |s.tasks| && s.tasks[t].pc.Locked?
    requires TaskNext(cfg, s, t) == Some(s')
    ensures Inv(cfg, recs0, s', g)
  {
    hide HeapPart, TasksOk, BucketLocksOk, AllocLockOk, ResLockOk, NodesOk, MemoryPart, LogOk, ResultsOk, PhaseOk,
         TaskNext, TaskOk;
    WorkContext(cfg, recs0, s, g, t);
    HeadRead(cfg, recs0, s, g, t);
    var b := CurBucket(cfg, |s.tasks|, t, s.tasks[t]);
    var ps, c, key, buf := g.view.chains[b], g.view.recs[b], CurItem(cfg, |s.tasks|, t, s.tasks[t]).key,
        s.mem[cfg.heads[b]];
    var pc := match cfg.op
      case InsertOp => InsRead(buf)
      case DeleteOp => DelRead(buf)
      case LookupOp => FindScan(cfg.heads[b], buf);
    assert s' == Move(s, t, pc);
    hide OpNext;
    if cfg.op == LookupOp {
      assert FindAt(g.vmem, ps, c, key, 0, ps[0], buf);
    }
    QuietWork(cfg, recs0, s, g, t, pc);
  }

  /** One iteration of a search: a match, the end of the chain, or the next node. */
  lemma SearchStep(vmem: Memory, ps: seq<Addr>, c: seq<Rec>, key: Key, i: nat)
    requires ChainOk(vmem, ps, c) && i < |ps| && NotBefore(c, i, key)
    ensures Matches(vmem[ps[i]], key) ==>
            Present(c, key) && IndexOf(c, key) == i && |c| == |ps| && FoundOk(vmem, c, key, ps[i])
    ensures !Matches(vmem[ps[i]], key) ==> NotBefore(c, i + 1, key)
    ensures !Matches(vmem[ps[i]], key) && vmem[ps[i]].next == NULL ==> !Present(c, key)
    ensures vmem[ps[i]].next != NULL ==> i + 1 < |ps| && vmem[ps[i]].next == ps[i + 1] && ps[i + 1] in vmem
    ensures vmem[ps[i]].next == NULL ==> i + 1 == |ps|
  {
    if c != [] { assert Stored(vmem[ps[i]], c[i]); }
    if Matches(vmem[ps[i]], key) {
      IndexIs(c, key, i);
    } else if vmem[ps[i]].next == NULL {
      IndexIs(c, key, |c|);
    }
  }

  lemma FindStep(cfg: Config, recs0: seq<seq<Rec>>, s: State, g: Ghost, t: nat, s': State)
    requires Inv(cfg, recs0, s, g) && t < |s.tasks| && s.tasks[t].pc.FindScan?
    requires TaskNext(cfg, s, t) == Some(s')
    ensures Inv(cfg, recs0, s', g)
  {
    hide HeapPart, TasksOk, BucketLocksOk, AllocLockOk, ResLockOk, NodesOk, MemoryPart, LogOk, ResultsOk, PhaseOk,
         TaskNext, TaskOk, ChainOk, OpNext, CurItem, CurMutex, BucketOf, IndexOf, Present, ValueOf;
    var i := FindContext(cfg, recs0, s, g, t);
    WorkContext(cfg, recs0, s, g, t);
    var k, p := s.tasks[t], |s.tasks|;
    var b, it := CurBucket(cfg, p, t, k), CurItem(cfg, p, t, k);
    FindShape(cfg, s, t, it, cfg.heads[b], CurMutex(cfg, p, t, k), s');
    SearchStep(g.vmem, g.view.chains[b], g.view.recs[b], it.key, i);
    if Matches(k.pc.buf, it.key) {
      QuietWork(cfg, recs0, s, g, t, Release(k.pc.found));
    } else if k.pc.buf.next == NULL {
      QuietWork(cfg, recs0, s, g, t, Release(NULL));
    } else {
      FindOn(cfg, recs0, s, g, t, i);
    }
  }

  /** Where in its chain a searching tasklet is. */
  lemma FindContext(cfg: Config, recs0: seq<seq<Rec>>, s: State, g: Ghost, t: nat) returns (i: nat)
    requires Inv(cfg, recs0, s, g) && t < |s.tasks| && s.tasks[t].pc.FindScan?
    ensures var b := CurBucket(cfg, |s.tasks|, t, s.tasks[t]);
            && cfg.op == LookupOp && b < |cfg.heads| == |g.view.chains| == |g.view.recs|
            && ChainOk(g.vmem, g.view.chains[b], g.view.recs[b])
            && FindAt(g.vmem, g.view.chains[b], g.view.recs[b], CurItem(cfg, |s.tasks|, t, s.tasks[t]).key, i,
                      s.tasks[t].pc.found, s.tasks[t].pc.buf)
  {
    hide HeapPart, TasksOk, BucketLocksOk, AllocLockOk, ResLockOk, NodesOk, MemoryPart, LogOk, ResultsOk, PhaseOk,
         TaskNext, TaskOk, ChainOk, OpNext, CurItem, CurMutex, BucketOf;
    WorkContext(cfg, recs0, s, g, t);
    HeadRead(cfg, recs0, s, g, t);
    var b := CurBucket(cfg, |s.tasks|, t, s.tasks[t]);
    i :| FindAt(g.vmem, g.view.chains[b], g.view.recs[b], CurItem(cfg, |s.tasks|, t, s.tasks[t]).key, i,
                s.tasks[t].pc.found, s.tasks[t].pc.buf);
  }

  lemma FindShape(cfg: Config, s: State, t: nat, it: Item, head: Addr, mutex: nat, s': State)
    requires t < |s.tasks| && s.tasks[t].pc.FindScan? && OpNext(cfg, s, t, it, head, mutex) == Some(s')
    ensures var found, buf := s.tasks[t].pc.found, s.tasks[t].pc.buf;
            if Matches(buf, it.key) then s' == Move(s, t, Release(found))
            else if buf.next == NULL then s' == Move(s, t, Release(NULL))
            else buf.next in s.mem && s' == Move(s, t, FindScan(buf.next, s.mem[buf.next]))
  {
  }

  /** The lookup loop at a node that neither matches nor ends the chain. */
  lemma FindOn(cfg: Config, recs0: seq<seq<Rec>>, s: State, g: Ghost, t: nat, i: nat)
    requires Inv(cfg, recs0, s, g) && t < |s.tasks| && s.tasks[t].pc.FindScan? && cfg.op == LookupOp
    requires var b := CurBucket(cfg, |s.tasks|, t, s.tasks[t]);
             && b < |g.view.chains| && b < |g.view.recs| && i + 1 < |g.view.chains[b]|
             && s.tasks[t].pc.buf.next == g.view.chains[b][i + 1]
             && NotBefore(g.view.recs[b], i + 1, CurItem(cfg, |s.tasks|, t, s.tasks[t]).key)
    ensures s.tasks[t].pc.buf.next in s.mem
    ensures Inv(cfg, recs0, Move(s, t, FindScan(s.tasks[t].pc.buf.next, s.mem[s.tasks[t].pc.buf.next])), g)
  {
    hide HeapPart, TasksOk, BucketLocksOk, AllocLockOk, ResLockOk, NodesOk, MemoryPart, LogOk, ResultsOk, PhaseOk,
         CurBucket, NotBefore;
    var b := CurBucket(cfg, |s.tasks|, t, s.tasks[t]);
    var ps, c, key, a := g.view.chains[b], g.view.recs[b], CurItem(cfg, |s.tasks|, t, s.tasks[t]).key,
        s.tasks[t].pc.buf.next;
    CleanRead(cfg, s, g, t, i + 1);
    assert FindAt(g.vmem, ps, c, key, i + 1, a, s.mem[a]);
    QuietWork(cfg, recs0, s, g, t, FindScan(a, s.mem[a]));
  }

  /** The first delete step when it reads on. */
  lemma DeleteReadStep(cfg: Config, recs0: seq<seq<Rec>>, s: State, g: Ghost, t: nat, s': State)
    requires Inv(cfg, recs0, s, g) && t < |s.tasks| && s.tasks[t].pc.DelRead?
    requires TaskNext(cfg, s, t) == Some(s') && |s'.tasks| == |s.tasks| && !s'.tasks[t].pc.Release?
    ensures Inv(cfg, recs0, s', g)
  {
    hide HeapPart, TasksOk, BucketLocksOk, AllocLockOk, ResLockOk, NodesOk, MemoryPart, LogOk, ResultsOk, PhaseOk,
         TaskNext, TaskOk;
    WorkContext(cfg, recs0, s, g, t);
    HeadRead(cfg, recs0, s, g, t);
    var k := s.tasks[t];
    var b := CurBucket(cfg, |s.tasks|, t, k);
    var ps, c, key, buf := g.view.chains[b], g.view.recs[b], CurItem(cfg, |s.tasks|, t, k).key, k.pc.buf;
    SearchStep(g.vmem, ps, c, key, 0);
    CleanRead(cfg, s, g, t, 1);
    var next := s.mem[buf.next];
    var pc := if Matches(buf, key) then DelCopy(next) else DelScan(cfg.heads[b], buf, next);
    assert s' == Move(s, t, pc);
    hide OpNext;
    if !Matches(buf, key) {
      assert ScanAt(g.vmem, ps, c, key, 1, cfg.heads[b], buf, next);
    }
    QuietWork(cfg, recs0, s, g, t, pc);
  }

  /** A later delete step when it reads on. */
  lemma DeleteScanStep(cfg: Config, recs0: seq<seq<Rec>>, s: State, g: Ghost, t: nat, s': State)
    requires Inv(cfg, recs0, s, g) && t < |s.tasks| && s.tasks[t].pc.DelScan?
    requires TaskNext(cfg, s, t) == Some(s') && |s'.tasks| == |s.tasks| && !s'.tasks[t].pc.Release?
    ensures Inv(cfg, recs0, s', g)
  {
    hide HeapPart, TasksOk, BucketLocksOk, AllocLockOk, ResLockOk, NodesOk, MemoryPart, LogOk, ResultsOk, PhaseOk,
         TaskNext, TaskOk, ChainOk;
    WorkContext(cfg, recs0, s, g, t);
    HeadRead(cfg, recs0, s, g, t);
    var k := s.tasks[t];
    var b := CurBucket(cfg, |s.tasks|, t, k);
    var ps, c, key, buf := g.view.chains[b], g.view.recs[b], CurItem(cfg, |s.tasks|, t, k).key, k.pc.buf;
    var i: nat :| ScanAt(g.vmem, ps, c, key, i, k.pc.lastPtr, k.pc.last, buf);
    NodeLink(g.vmem, ps, c, i - 1);
    assert k.pc.last.next == ps[i];
    SearchStep(g.vmem, ps, c, key, i);
    assert !Matches(buf, key) && buf.next != NULL;
    CleanRead(cfg, s, g, t, i + 1);
    var pc := DelScan(k.pc.last.next, buf, s.mem[buf.next]);
    assert s' == Move(s, t, pc);
    hide OpNext;
    assert ScanAt(g.vmem, ps, c, key, i + 1, k.pc.last.next, buf, s.mem[buf.next]);
    QuietWork(cfg, recs0, s, g, t, pc);
  }

  lemma NodeLink(vmem: Memory, ps: seq<Addr>, c: seq<Rec>, i: nat)
    requires ChainOk(vmem, ps, c) && i < |ps|
    ensures ps[i] in vmem && vmem[ps[i]].next == LinkAt(ps, i)
  {
  }
}
