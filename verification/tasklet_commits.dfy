/** Steps that write the index: the link of a new node, and the steps at which an element takes effect. */
module TaskletCommits {
  import opened Util
  import opened Entries
  import opened ChainHeap
  import opened Interleavings
  import opened Tasklets
  import opened TaskletInvariant
  import opened TaskletFrames
  import opened TaskletSteps
  import opened TaskletLocks

  lemma HeadsDistinct(mem: Memory, heads: seq<Addr>, v: View, b1: nat, b2: nat)
    requires HeapOk(mem, heads, v) && b1 < |heads| && b2 < |heads| && heads[b1] == heads[b2]
    ensures b1 == b2
  {
    assert ChainOk(mem, v.chains[b1], v.recs[b1]) && ChainOk(mem, v.chains[b2], v.recs[b2]);
    assert v.owner[v.chains[b1][0]] == b1 && v.owner[v.chains[b2][0]] == b2;
  }

  /** Two tasklets inside their buckets have different heads. */
  lemma HeadsApart(cfg: Config, s: State, g: Ghost, t: nat, u: nat)
    requires ConfigOk(cfg) && BucketLocksOk(cfg, s) && HeapPart(cfg, g) && t < |s.tasks| && u < |s.tasks| && t != u
    requires HoldsBucket(s.tasks[t].pc) && HoldsBucket(s.tasks[u].pc)
    requires CurBucket(cfg, |s.tasks|, t, s.tasks[t]) < |cfg.heads|
             && CurBucket(cfg, |s.tasks|, u, s.tasks[u]) < |cfg.heads|
    ensures cfg.heads[CurBucket(cfg, |s.tasks|, t, s.tasks[t])] != cfg.heads[CurBucket(cfg, |s.tasks|, u, s.tasks[u])]
  {
    hide HeapOk, Homed, Block, LocalBucket;
    Exclusive(cfg, s, t, u);
    if cfg.heads[CurBucket(cfg, |s.tasks|, t, s.tasks[t])] == cfg.heads[CurBucket(cfg, |s.tasks|, u, s.tasks[u])] {
      HeadsDistinct(g.vmem, cfg.heads, g.view, CurBucket(cfg, |s.tasks|, t, s.tasks[t]),
                    CurBucket(cfg, |s.tasks|, u, s.tasks[u]));
      assert false;
    }
  }

  // --- The link write -----------------------------------------------------------------------

  lemma CurSame(cfg: Config, p: nat, t: nat, k: Task, k': Task)
    requires t < p && cfg.size > 0 && k'.handled == k.handled
    ensures CurItem(cfg, p, t, k') == CurItem(cfg, p, t, k) && CurBucket(cfg, p, t, k') == CurBucket(cfg, p, t, k)
  {
  }

  /** A tasklet between its two insert writes keeps its head when another one writes its own. */
  lemma LinkedElsewhere(cfg: Config, s: State, s': State, g: Ghost, t: nat, u: nat, head: Addr)
    requires ConfigOk(cfg) && HeapPart(cfg, g) && BucketLocksOk(cfg, s) && t < |s.tasks| && u < |s.tasks| && u != t
    requires HoldsBucket(s.tasks[t].pc) && s.tasks[u].pc.InsFill? && Linked(cfg, s, u)
    requires |s'.tasks| == |s.tasks| && s'.tasks[u] == s.tasks[u]
    requires CurBucket(cfg, |s.tasks|, t, s.tasks[t]) < |cfg.heads|
             && head == cfg.heads[CurBucket(cfg, |s.tasks|, t, s.tasks[t])]
    requires forall a :: a in s.mem && a != head ==> a in s'.mem && s'.mem[a] == s.mem[a]
    ensures Linked(cfg, s', u)
  {
    hide HeapPart, BucketLocksOk, CurBucket;
    HeadsApart(cfg, s, g, t, u);
  }

  lemma LinkMemory(cfg: Config, s: State, s': State, g: Ghost, g': Ghost, t: nat, k: Task, k': Task, head: Addr)
    requires ConfigOk(cfg) && HeapPart(cfg, g) && BucketLocksOk(cfg, s) && MemoryPart(cfg, s, g)
             && Moved(s, s', t, k, k')
    requires k.pc.InsLink? && k' == k.(pc := InsFill(k.pc.buf, k.pc.node))
    requires CurBucket(cfg, |s.tasks|, t, k) < |cfg.heads| && head == cfg.heads[CurBucket(cfg, |s.tasks|, t, k)]
             && head in s.mem
    requires s'.mem == s.mem[head := k.pc.buf.(next := k.pc.node)] && g' == g.(dirty := g.dirty[head := t])
    ensures MemoryPart(cfg, s', g')
  {
    hide HeapPart, BucketLocksOk, CurBucket, CleanOk, DirtyOk, LinkedOk;
    CurSame(cfg, |s.tasks|, t, k, k');
    LinkDirty(cfg, s, s', g, t, k, k', head);
    LinkClean(s.mem, g.vmem, g.dirty, head, t, k.pc.buf.(next := k.pc.node));
    LinkLinked(cfg, s, s', g, t, k, k', head);
  }

  lemma LinkLinked(cfg: Config, s: State, s': State, g: Ghost, t: nat, k: Task, k': Task, head: Addr)
    requires ConfigOk(cfg) && HeapPart(cfg, g) && BucketLocksOk(cfg, s) && LinkedOk(cfg, s) && Moved(s, s', t, k, k')
    requires k.pc.InsLink? && k'.pc.InsFill?
    requires CurBucket(cfg, |s.tasks|, t, k) < |cfg.heads| && head == cfg.heads[CurBucket(cfg, |s.tasks|, t, k)]
    requires CurBucket(cfg, |s.tasks|, t, k') == CurBucket(cfg, |s.tasks|, t, k)
    requires s'.mem == s.mem[head := k'.pc.buf.(next := k'.pc.node)]
    ensures LinkedOk(cfg, s')
  {
    hide HeapPart, BucketLocksOk, CurBucket;
    assert Linked(cfg, s', t);
    forall u | 0 <= u < |s.tasks| && u != t && s.tasks[u].pc.InsFill?
      ensures Linked(cfg, s', u)
    {
      LinkedElsewhere(cfg, s, s', g, t, u, head);
    }
  }

  lemma LinkClean(mem: Memory, vmem: Memory, dirty: map<Addr, nat>, head: Addr, t: nat, e: Entry)
    requires CleanOk(mem, vmem, dirty) && head in mem
    ensures CleanOk(mem[head := e], vmem, dirty[head := t])
  {
  }

  lemma LinkDirty(cfg: Config, s: State, s': State, g: Ghost, t: nat, k: Task, k': Task, head: Addr)
    requires cfg.size > 0 && Moved(s, s', t, k, k') && DirtyOk(cfg, s, g.dirty) && k.pc.InsLink? && k'.pc.InsFill?
    requires CurBucket(cfg, |s.tasks|, t, k') < |cfg.heads| && head == cfg.heads[CurBucket(cfg, |s.tasks|, t, k')]
    ensures DirtyOk(cfg, s', g.dirty[head := t])
  {
    hide CurBucket;
  }

  lemma LinkStep(cfg: Config, recs0: seq<seq<Rec>>, s: State, g: Ghost, t: nat, s': State) returns (g': Ghost)
    requires Inv(cfg, recs0, s, g) && t < |s.tasks| && s.tasks[t].pc.InsLink?
    requires TaskNext(cfg, s, t) == Some(s')
    ensures Inv(cfg, recs0, s', g')
  {
    hide HeapPart, TasksOk, BucketLocksOk, AllocLockOk, ResLockOk, NodesOk, MemoryPart, LogOk, ResultsOk, PhaseOk,
         TaskNext, TaskOk;
    WorkContext(cfg, recs0, s, g, t);
    HeadRead(cfg, recs0, s, g, t);
    var k, head := s.tasks[t], cfg.heads[CurBucket(cfg, |s.tasks|, t, s.tasks[t])];
    var pc := InsFill(k.pc.buf, k.pc.node);
    var k' := k.(pc := pc);
    assert s' == Move(s.(mem := s.mem[head := k.pc.buf.(next := k.pc.node)]), t, pc);
    hide OpNext;
    g' := g.(dirty := g.dirty[head := t]);
    TaskMoved(cfg, recs0, s, g, t, pc);
    HeapGhost(cfg, g, g');
    hide PcOk;
    KeepTasks(cfg, s, s', g, g', t, k, k');
    KeepLocks(cfg, s, s', t, k, k');
    KeepNodes(cfg, s, s', g, g', t, k, k');
    LinkMemory(cfg, s, s', g, g', t, k, k', head);
    KeepLog(cfg, recs0, s, s', g, g', t, k, k');
    KeepResults(cfg, recs0, s, s', g, g', t, k, k');
    KeepPhase(cfg, s, s', t, k, k');
  }

  // --- Taking effect ------------------------------------------------------------------------

  /** What an effect may touch: bucket b's chain and records, and memory outside all other chains. */
  ghost predicate Confined(g: Ghost, g': Ghost, b: nat) {
    && |g'.view.chains| == |g.view.chains| && |g'.view.recs| == |g.view.recs|
    && forall o :: 0 <= o < |g.view.chains| && o < |g.view.recs| && o != b ==>
         g'.view.chains[o] == g.view.chains[o] && g'.view.recs[o] == g.view.recs[o]
           && Same(g.vmem, g'.vmem, g.view.chains[o])
  }

  lemma CommitTasks(cfg: Config, s: State, s': State, g: Ghost, g': Ghost, t: nat, k: Task, k': Task)
    requires ConfigOk(cfg) && Moved(s, s', t, k, k') && TasksOk(cfg, s, g) && BucketLocksOk(cfg, s)
    requires cfg.op != LookupOp && HoldsBucket(k.pc) && k' == k.(pc := Release(NULL))
    requires Confined(g, g', CurBucket(cfg, |s.tasks|, t, k))
    ensures TasksOk(cfg, s', g')
  {
    hide Confined, BucketLocksOk, Block, LocalBucket, BucketOf;
    forall u | 0 <= u < |s'.tasks|
      ensures TaskOk(cfg, g'.vmem, g'.view, |s'.tasks|, u, s'.tasks[u])
    {
      if u == t {
        assert TaskOk(cfg, g.vmem, g.view, |s.tasks|, t, k);
        ConfinedSizes(g, g', CurBucket(cfg, |s.tasks|, t, k));
      } else {
        CommitOther(cfg, s, g, g', t, u);
      }
    }
  }

  lemma ConfinedSizes(g: Ghost, g': Ghost, b: nat)
    requires Confined(g, g', b)
    ensures |g'.view.chains| == |g.view.chains| && |g'.view.recs| == |g.view.recs|
  {
  }

  lemma CommitOther(cfg: Config, s: State, g: Ghost, g': Ghost, t: nat, u: nat)
    requires ConfigOk(cfg) && t < |s.tasks| && u < |s.tasks| && u != t && BucketLocksOk(cfg, s)
             && HoldsBucket(s.tasks[t].pc)
    requires TaskOk(cfg, g.vmem, g.view, |s.tasks|, u, s.tasks[u]) && cfg.op != LookupOp
    requires Confined(g, g', CurBucket(cfg, |s.tasks|, t, s.tasks[t]))
    ensures TaskOk(cfg, g'.vmem, g'.view, |s.tasks|, u, s.tasks[u])
  {
    hide TaskOk, BucketLocksOk, Block, LocalBucket, BucketOf;
    if HoldsBucket(s.tasks[u].pc) { Exclusive(cfg, s, t, u); }
    TaskFrame(cfg, g, g', CurBucket(cfg, |s.tasks|, t, s.tasks[t]), |s.tasks|, u, s.tasks[u]);
  }

  lemma CommitLog(cfg: Config, recs0: seq<seq<Rec>>, s: State, s': State, g: Ghost, g': Ghost, t: nat, k: Task,
                  k': Task, meta: Metadata)
    requires cfg.size > 0 && Moved(s, s', t, k, k') && LogOk(cfg, recs0, s.tasks, g)
    requires cfg.op != LookupOp && HoldsBucket(k.pc) && !k.pc.Release? && k' == k.(pc := Release(NULL))
    requires 1 <= k.handled <= |Slice(cfg, |s.tasks|, t)|
    requires g'.log == g.log + [Ev(t, CurItem(cfg, |s.tasks|, t, k))] && g'.metas == g.metas + [meta]
    requires g'.view.recs == ApplyOne(cfg, g.view.recs, CurItem(cfg, |s.tasks|, t, k), meta)
    ensures LogOk(cfg, recs0, s'.tasks, g')
  {
    hide Block, LocalBucket, BucketOf, ApplyOne, Apply;
    var p, e := |s.tasks|, Ev(t, CurItem(cfg, |s.tasks|, t, k));
    ApplyAppend(cfg, recs0, g.log, g.metas, e, meta);
    forall u | 0 <= u < p
      ensures Committed(cfg, s'.tasks[u]) <= |Slice(cfg, p, u)|
      ensures Proj(g'.log, u) == Slice(cfg, p, u)[..Committed(cfg, s'.tasks[u])]
    {
      ProjAppend(g.log, e, u);
      if u == t {
        var n := k.handled;
        assert Slice(cfg, p, t)[..n] == Slice(cfg, p, t)[..n - 1] + [Slice(cfg, p, t)[n - 1]];
      }
    }
  }

  /** An element of an insert or delete batch takes effect: the heap part, the nodes and the memory are
      given, the rest of the invariant follows. */
  lemma Commit(cfg: Config, recs0: seq<seq<Rec>>, s: State, s': State, g: Ghost, g': Ghost, t: nat, meta: Metadata)
    requires Inv(cfg, recs0, s, g) && t < |s.tasks| && cfg.op != LookupOp
    requires HoldsBucket(s.tasks[t].pc) && !s.tasks[t].pc.Release? && !HoldsAlloc(s.tasks[t].pc)
    requires s' == Move(s.(mem := s'.mem), t, Release(NULL))
    requires var it := CurItem(cfg, |s.tasks|, t, s.tasks[t]);
             g'.log == g.log + [Ev(t, it)] && g'.metas == g.metas + [meta] && g'.rlog == g.rlog
             && g'.view.recs == ApplyOne(cfg, g.view.recs, it, meta)
    requires HeapPart(cfg, g') && Confined(g, g', CurBucket(cfg, |s.tasks|, t, s.tasks[t]))
    requires NodesOk(cfg, s', g') && MemoryPart(cfg, s', g')
    ensures Inv(cfg, recs0, s', g')
  {
    hide HeapPart, TasksOk, BucketLocksOk, AllocLockOk, ResLockOk, NodesOk, MemoryPart, LogOk, ResultsOk, PhaseOk,
         PcOk, Confined, ApplyOne;
    var k := s.tasks[t];
    var k' := k.(pc := Release(NULL));
    WorkContext(cfg, recs0, s, g, t);
    hide TaskOk, TaskNext, OpNext;
    CommitTasks(cfg, s, s', g, g', t, k, k');
    KeepLocks(cfg, s, s', t, k, k');
    CommitLog(cfg, recs0, s, s', g, g', t, k, k', meta);
    ResultsIdle(cfg, recs0, s', g');
    KeepPhase(cfg, s, s', t, k, k');
  }

  lemma ResultsIdle(cfg: Config, recs0: seq<seq<Rec>>, s: State, g: Ghost)
    requires cfg.size > 0 && cfg.op != LookupOp
    ensures ResultsOk(cfg, recs0, s, g)
  {
  }

  /** The same write to memory and to its bookkeeping copy, at a clean address. */
  lemma CleanWrite(cfg: Config, s: State, s': State, g: Ghost, g': Ghost, t: nat, k: Task, k': Task, a: Addr, e: Entry)
    requires ConfigOk(cfg) && HeapPart(cfg, g) && BucketLocksOk(cfg, s) && MemoryPart(cfg, s, g)
             && Moved(s, s', t, k, k')
    requires !k.pc.InsFill? && !k'.pc.InsFill? && a in s.mem && a !in g.dirty && HoldsBucket(k.pc)
    requires a in g.view.owner && g.view.owner[a] == CurBucket(cfg, |s.tasks|, t, k)
    requires s'.mem == s.mem[a := e] && g'.vmem == g.vmem[a := e] && g'.dirty == g.dirty
    ensures MemoryPart(cfg, s', g')
  {
    hide HeapPart, BucketLocksOk, CurBucket;
    forall u | 0 <= u < |s.tasks| && u != t && s.tasks[u].pc.InsFill?
      ensures Linked(cfg, s', u)
    {
      assert Linked(cfg, s, u);
      CleanAddress(cfg, s, g, t, u, a);
    }
    hide Linked;
    forall x | x in g.dirty
      ensures g.dirty[x] != t && HeadOf(cfg, s', g.dirty[x], x)
    {
      assert HeadOf(cfg, s, g.dirty[x], x);
    }
  }

  lemma CleanAddress(cfg: Config, s: State, g: Ghost, t: nat, u: nat, a: Addr)
    requires ConfigOk(cfg) && HeapPart(cfg, g) && BucketLocksOk(cfg, s) && MemoryPart(cfg, s, g)
    requires t < |s.tasks| && u < |s.tasks| && u != t && HoldsBucket(s.tasks[t].pc) && s.tasks[u].pc.InsFill?
    requires a in g.view.owner && g.view.owner[a] == CurBucket(cfg, |s.tasks|, t, s.tasks[t])
    ensures CurBucket(cfg, |s.tasks|, u, s.tasks[u]) < |cfg.heads|
            && cfg.heads[CurBucket(cfg, |s.tasks|, u, s.tasks[u])] != a
  {
    hide BucketLocksOk, Block, LocalBucket, BucketOf, HeapOk, Homed;
    assert Linked(cfg, s, u);
    Exclusive(cfg, s, t, u);
    HeadOwner(g.vmem, cfg.heads, g.view, CurBucket(cfg, |s.tasks|, u, s.tasks[u]));
  }

  lemma HeadOwner(mem: Memory, heads: seq<Addr>, v: View, b: nat)
    requires HeapOk(mem, heads, v) && b < |heads|
    ensures heads[b] in v.owner && v.owner[heads[b]] == b
  {
    assert ChainOk(mem, v.chains[b], v.recs[b]);
  }
}
