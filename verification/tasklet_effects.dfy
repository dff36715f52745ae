/** The steps at which an insert or a delete takes effect, one by one. */
module TaskletEffects {
  import opened Util
  import opened Entries
  import opened BucketSpec
  import opened ChainHeap
  import opened IndexLayout
  import opened Interleavings
  import opened Tasklets
  import opened TaskletInvariant
  import opened TaskletFrames
  import opened TaskletSteps
  import opened TaskletCommits

  /** Writes at addresses of bucket b, or at addresses no chain uses, are confined to b. */
  lemma ConfinedWrite(cfg: Config, g: Ghost, g': Ghost, b: nat)
    requires cfg.size > 0 && HeapPart(cfg, g) && b < |cfg.heads|
    requires |g'.view.chains| == |g'.view.recs| == |cfg.heads|
    requires g'.view.chains == g.view.chains[b := g'.view.chains[b]]
             && g'.view.recs == g.view.recs[b := g'.view.recs[b]]
    requires forall a :: a in g.view.owner && g.view.owner[a] != b ==> a in g'.vmem && g'.vmem[a] == g.vmem[a]
    ensures Confined(g, g', b)
  {
    hide ChainOk, Homed;
  }

  lemma BucketHome(cfg: Config, key: Key)
    requires cfg.size > 0
    ensures BucketOf(cfg, key) % cfg.size == LocalBucket(key, cfg.size)
  {
    BucketAtBounds(SlotOf(cfg), cfg.size, LocalBucket(key, cfg.size), SlotOf(cfg) + 1);
  }

  /** The buckets stay homed when an element is applied. */
  lemma HomedApply(cfg: Config, recs: seq<seq<Rec>>, it: Item, meta: Metadata)
    requires cfg.size > 0 && Homed(recs, cfg.size)
    ensures Homed(ApplyOne(cfg, recs, it, meta), cfg.size)
  {
    var b := BucketOf(cfg, it.key);
    hide LocalBucket, BucketOf;
    if b < |recs| {
      BucketHome(cfg, it.key);
      match cfg.op
      case InsertOp => HomedUpdate(recs, cfg.size, b, InsertRec(recs[b], Rec(it.key, it.arg, meta)));
      case DeleteOp => HomedUpdate(recs, cfg.size, b, RemoveRec(recs[b], it.key));
      case LookupOp =>
    }
  }

  lemma HeapParts(cfg: Config, g: Ghost, g': Ghost, it: Item, meta: Metadata)
    requires cfg.size > 0 && HeapPart(cfg, g) && HeapOk(g'.vmem, cfg.heads, g'.view)
    requires g'.view.recs == ApplyOne(cfg, g.view.recs, it, meta)
    ensures HeapPart(cfg, g')
  {
    hide HeapOk, Homed, ApplyOne;
    HomedApply(cfg, g.view.recs, it, meta);
  }

  lemma FilledStored(buf: Entry, it: Item, next: Addr)
    ensures Stored(Filled(buf, it, next), Rec(it.key, it.arg, buf.meta)) && Filled(buf, it, next).next == next
  {
  }

  /** An effect whose only write is one entry of the tasklet's own bucket. */
  lemma OneWrite(cfg: Config, recs0: seq<seq<Rec>>, s: State, s': State, g: Ghost, view: View, t: nat, meta: Metadata,
                 a: Addr, e: Entry)
    returns (g': Ghost)
    requires Inv(cfg, recs0, s, g) && t < |s.tasks| && cfg.op != LookupOp
    requires HoldsBucket(s.tasks[t].pc) && !s.tasks[t].pc.Release? && !HoldsAlloc(s.tasks[t].pc)
             && !HasNode(s.tasks[t].pc)
    requires s' == Move(s.(mem := s.mem[a := e]), t, Release(NULL))
    requires var b := CurBucket(cfg, |s.tasks|, t, s.tasks[t]);
             && a in s.mem && a !in g.dirty && a in g.view.owner && g.view.owner[a] == b
             && b < |cfg.heads| == |view.chains| == |view.recs|
             && view == View(g.view.chains[b := view.chains[b]], g.view.recs[b := view.recs[b]], g.view.owner)
    requires view.recs == ApplyOne(cfg, g.view.recs, CurItem(cfg, |s.tasks|, t, s.tasks[t]), meta)
    requires HeapOk(g.vmem[a := e], cfg.heads, view)
    ensures Inv(cfg, recs0, s', g')
  {
    hide HeapPart, TasksOk, BucketLocksOk, AllocLockOk, ResLockOk, NodesOk, MemoryPart, LogOk, ResultsOk, PhaseOk,
         ApplyOne, HeapOk, Block;
    var k := s.tasks[t];
    var k', it, b := k.(pc := Release(NULL)), CurItem(cfg, |s.tasks|, t, k), CurBucket(cfg, |s.tasks|, t, k);
    g' := Ghost(g.vmem[a := e], view, g.dirty, g.log + [Ev(t, it)], g.metas + [meta], g.rlog);
    HeapParts(cfg, g, g', it, meta);
    SameKeys(cfg, s, g, a, e);
    OwnersKept(cfg, g, g', b, a, e);
    ConfinedWrite(cfg, g, g', b);
    CleanWrite(cfg, s, s', g, g', t, k, k', a, e);
    KeepNodes(cfg, s, s', g, g', t, k, k');
    Commit(cfg, recs0, s, s', g, g', t, meta);
  }

  lemma SameKeys(cfg: Config, s: State, g: Ghost, a: Addr, e: Entry)
    requires cfg.size > 0 && MemoryPart(cfg, s, g) && a in s.mem
    ensures g.vmem[a := e].Keys == g.vmem.Keys
  {
  }

  lemma OwnersKept(cfg: Config, g: Ghost, g': Ghost, b: nat, a: Addr, e: Entry)
    requires cfg.size > 0 && HeapPart(cfg, g) && a in g.view.owner && g.view.owner[a] == b && g'.vmem == g.vmem[a := e]
    ensures forall x :: x in g.view.owner && g.view.owner[x] != b ==> x in g'.vmem && g'.vmem[x] == g.vmem[x]
  {
  }

  /** A delete that found nothing takes effect without a write. */
  lemma NoWrite(cfg: Config, recs0: seq<seq<Rec>>, s: State, s': State, g: Ghost, t: nat) returns (g': Ghost)
    requires Inv(cfg, recs0, s, g) && t < |s.tasks| && cfg.op == DeleteOp
    requires (s.tasks[t].pc.DelRead? || s.tasks[t].pc.DelScan?) && s' == Move(s, t, Release(NULL))
    requires var b := CurBucket(cfg, |s.tasks|, t, s.tasks[t]);
             b < |g.view.recs| && !Present(g.view.recs[b], CurItem(cfg, |s.tasks|, t, s.tasks[t]).key)
    ensures Inv(cfg, recs0, s', g')
  {
    hide HeapPart, TasksOk, BucketLocksOk, AllocLockOk, ResLockOk, NodesOk, MemoryPart, LogOk, ResultsOk, PhaseOk,
         HeapOk, Block;
    var k := s.tasks[t];
    var k', it, b := k.(pc := Release(NULL)), CurItem(cfg, |s.tasks|, t, k), CurBucket(cfg, |s.tasks|, t, k);
    var meta := Metadata(0, 0);
    g' := Ghost(g.vmem, g.view, g.dirty, g.log + [Ev(t, it)], g.metas + [meta], g.rlog);
    assert ApplyOne(cfg, g.view.recs, it, meta) == g.view.recs;
    HeapGhost(cfg, g, g');
    KeepMemory(cfg, s, s', g, g', t, k, k');
    KeepNodes(cfg, s, s', g, g', t, k, k');
    assert Confined(g, g', b);
    Commit(cfg, recs0, s, s', g, g', t, meta);
  }

  // --- Insert -------------------------------------------------------------------------------

  lemma InsertHeadStep(cfg: Config, recs0: seq<seq<Rec>>, s: State, g: Ghost, t: nat, s': State) returns (g': Ghost)
    requires Inv(cfg, recs0, s, g) && t < |s.tasks| && s.tasks[t].pc.InsRead? && s.tasks[t].pc.buf.keyLen == 0
    requires TaskNext(cfg, s, t) == Some(s')
    ensures Inv(cfg, recs0, s', g')
  {
    hide HeapPart, TasksOk, BucketLocksOk, AllocLockOk, ResLockOk, NodesOk, MemoryPart, LogOk, ResultsOk, PhaseOk,
         TaskNext, TaskOk, Block;
    WorkContext(cfg, recs0, s, g, t);
    HeadRead(cfg, recs0, s, g, t);
    var k := s.tasks[t];
    var b, it := CurBucket(cfg, |s.tasks|, t, k), CurItem(cfg, |s.tasks|, t, k);
    var head, buf := cfg.heads[b], k.pc.buf;
    var e := Filled(buf, it, NULL);
    assert s' == Move(s.(mem := s.mem[head := e]), t, Release(NULL));
    hide OpNext, PcOk;
    FilledStored(buf, it, NULL);
    hide Filled;
    HeapOf(cfg, g);
    HeadOwner(g.vmem, cfg.heads, g.view, b);
    BucketLength(g.vmem, cfg.heads, g.view, b);
    var r := Rec(it.key, it.arg, buf.meta);
    FillHead(g.vmem, cfg.heads, g.view, b, e, r);
    var view := g.view.(recs := g.view.recs[b := InsertRec(g.view.recs[b], r)]);
    hide HeapOk, InsertRec, ChainOk;
    g' := OneWrite(cfg, recs0, s, s', g, view, t, buf.meta, head, e);
  }

  /** The memory once the node is written: head and node together are the finished insert. */
  lemma FillMemory(cfg: Config, s: State, s': State, g: Ghost, g': Ghost, t: nat, k: Task, k': Task, head: Addr,
                   e: Entry)
    requires ConfigOk(cfg) && HeapPart(cfg, g) && BucketLocksOk(cfg, s) && MemoryPart(cfg, s, g)
             && Moved(s, s', t, k, k')
    requires k.pc.InsFill? && !k'.pc.InsFill? && k.pc.node !in g.vmem
    requires CurBucket(cfg, |s.tasks|, t, k) < |cfg.heads| && head == cfg.heads[CurBucket(cfg, |s.tasks|, t, k)]
    requires At(g.vmem, head, k.pc.buf)
    requires s'.mem == s.mem[k.pc.node := e] && g'.vmem == LinkSecond(g.vmem, head, k.pc.node, e)
             && g'.dirty == g.dirty - {head}
    ensures MemoryPart(cfg, s', g')
  {
    hide HeapPart, BucketLocksOk, CurBucket, CleanOk, DirtyOk, LinkedOk;
    FillDirty(cfg, s, s', g, t, k, k', head);
    FillHeadLink(cfg, s, t, k);
    FillClean(s.mem, g.vmem, g.dirty, head, k.pc.buf, k.pc.node, e);
    FillLinked(cfg, s, s', g, t, k, k', e);
  }

  lemma FillHeadLink(cfg: Config, s: State, t: nat, k: Task)
    requires cfg.size > 0 && LinkedOk(cfg, s) && t < |s.tasks| && s.tasks[t] == k && k.pc.InsFill?
    ensures CurBucket(cfg, |s.tasks|, t, k) < |cfg.heads|
    ensures At(s.mem, cfg.heads[CurBucket(cfg, |s.tasks|, t, k)], k.pc.buf.(next := k.pc.node))
  {
    hide CurBucket;
    assert Linked(cfg, s, t);
  }

  lemma FillLinked(cfg: Config, s: State, s': State, g: Ghost, t: nat, k: Task, k': Task, e: Entry)
    requires cfg.size > 0 && LinkedOk(cfg, s) && Moved(s, s', t, k, k') && CleanOk(s.mem, g.vmem, g.dirty)
    requires k.pc.InsFill? && !k'.pc.InsFill? && k.pc.node !in g.vmem && s'.mem == s.mem[k.pc.node := e]
    ensures LinkedOk(cfg, s')
  {
    hide CurBucket;
    forall u | 0 <= u < |s.tasks| && u != t && s.tasks[u].pc.InsFill?
      ensures Linked(cfg, s', u)
    {
      assert Linked(cfg, s, u);
    }
  }

  lemma FillClean(mem: Memory, vmem: Memory, dirty: map<Addr, nat>, head: Addr, buf: Entry, node: Addr, e: Entry)
    requires CleanOk(mem, vmem, dirty) && At(vmem, head, buf) && At(mem, head, buf.(next := node)) && node !in vmem
    ensures CleanOk(mem[node := e], LinkSecond(vmem, head, node, e), dirty - {head})
  {
  }

  lemma FillDirty(cfg: Config, s: State, s': State, g: Ghost, t: nat, k: Task, k': Task, head: Addr)
    requires cfg.size > 0 && Moved(s, s', t, k, k') && DirtyOk(cfg, s, g.dirty) && k.pc.InsFill? && !k'.pc.InsFill?
    requires CurBucket(cfg, |s.tasks|, t, k) < |cfg.heads| && head == cfg.heads[CurBucket(cfg, |s.tasks|, t, k)]
    ensures DirtyOk(cfg, s', g.dirty - {head})
  {
    hide CurBucket;
    forall a | a in g.dirty - {head}
      ensures g.dirty[a] != t && HeadOf(cfg, s', g.dirty[a], a)
    {
      assert HeadOf(cfg, s, g.dirty[a], a);
    }
  }

  lemma FillNodes(cfg: Config, s: State, s': State, g: Ghost, g': Ghost, t: nat, k: Task, k': Task)
    requires Moved(s, s', t, k, k') && NodesOk(cfg, s, g) && s' == s.(mem := s'.mem, tasks := s'.tasks)
    requires k.pc.InsFill? && k' == k.(pc := Release(NULL)) && g'.vmem.Keys == g.vmem.Keys + {k.pc.node}
    ensures NodesOk(cfg, s', g')
  {
    DemandUpdate(cfg, s.tasks, t, k', |s.tasks|);
  }

  lemma NodeFresh(cfg: Config, s: State, g: Ghost, t: nat)
    requires NodesOk(cfg, s, g) && t < |s.tasks| && HasNode(s.tasks[t].pc)
    ensures s.tasks[t].pc.node !in g.vmem && s.tasks[t].pc.node != NULL
  {
    forall a | a in g.vmem ensures a != s.tasks[t].pc.node {
      assert Apart(s.tasks[t].pc.node, a);
    }
  }

  /** The head of a tasklet between its two insert writes, as the bookkeeping has it. */
  lemma LinkedHead(cfg: Config, recs0: seq<seq<Rec>>, s: State, g: Ghost, t: nat)
    requires Inv(cfg, recs0, s, g) && t < |s.tasks| && s.tasks[t].pc.InsFill?
    ensures var b := CurBucket(cfg, |s.tasks|, t, s.tasks[t]);
            && b < |cfg.heads| == |g.view.chains| == |g.view.recs|
            && ChainOk(g.vmem, g.view.chains[b], g.view.recs[b]) && g.view.chains[b][0] == cfg.heads[b]
  {
    hide TasksOk, BucketLocksOk, AllocLockOk, ResLockOk, NodesOk, MemoryPart, LogOk, ResultsOk, PhaseOk, TaskNext,
         OpNext, TaskOk;
    WorkContext(cfg, recs0, s, g, t);
  }

  lemma InsertNodeStep(cfg: Config, recs0: seq<seq<Rec>>, s: State, g: Ghost, t: nat, s': State) returns (g': Ghost)
    requires Inv(cfg, recs0, s, g) && t < |s.tasks| && s.tasks[t].pc.InsFill?
    requires TaskNext(cfg, s, t) == Some(s')
    ensures Inv(cfg, recs0, s', g')
  {
    hide HeapPart, TasksOk, BucketLocksOk, AllocLockOk, ResLockOk, NodesOk, MemoryPart, LogOk, ResultsOk, PhaseOk,
         TaskNext, TaskOk, Block;
    WorkContext(cfg, recs0, s, g, t);
    LinkedHead(cfg, recs0, s, g, t);
    NodeFresh(cfg, s, g, t);
    var k := s.tasks[t];
    var b, it := CurBucket(cfg, |s.tasks|, t, k), CurItem(cfg, |s.tasks|, t, k);
    var head, buf, node := cfg.heads[b], k.pc.buf, k.pc.node;
    var e := Filled(buf, it, buf.next);
    var k' := k.(pc := Release(NULL));
    assert s' == Move(s.(mem := s.mem[node := e]), t, Release(NULL));
    hide OpNext, PcOk;
    FilledStored(buf, it, buf.next);
    hide Filled;
    HeapOf(cfg, g);
    BucketLength(g.vmem, cfg.heads, g.view, b);
    var r := Rec(it.key, it.arg, buf.meta);
    InsertSecond(g.vmem, cfg.heads, g.view, b, node, e, r);
    hide HeapOk, ChainOk;
    var view := View(g.view.chains[b := InsertChain(g.view.chains[b], node)],
                     g.view.recs[b := InsertRec(g.view.recs[b], r)],
                     g.view.owner[node := b]);
    g' := Ghost(LinkSecond(g.vmem, head, node, e), view, g.dirty - {head}, g.log + [Ev(t, it)], g.metas + [buf.meta],
                g.rlog);
    HeapParts(cfg, g, g', it, buf.meta);
    LinkOwners(cfg, g, b, head, node, e);
    ConfinedWrite(cfg, g, g', b);
    FillMemory(cfg, s, s', g, g', t, k, k', head, e);
    FillNodes(cfg, s, s', g, g', t, k, k');
    Commit(cfg, recs0, s, s', g, g', t, buf.meta);
  }

  lemma LinkOwners(cfg: Config, g: Ghost, b: nat, head: Addr, node: Addr, e: Entry)
    requires cfg.size > 0 && HeapPart(cfg, g) && b < |cfg.heads| && head == cfg.heads[b] && head in g.vmem
             && node !in g.vmem
    ensures LinkSecond(g.vmem, head, node, e).Keys == g.vmem.Keys + {node}
    ensures forall x :: x in g.view.owner && g.view.owner[x] != b ==>
              x in LinkSecond(g.vmem, head, node, e) && LinkSecond(g.vmem, head, node, e)[x] == g.vmem[x]
  {
    HeadOwner(g.vmem, cfg.heads, g.view, b);
  }

  // --- Delete -------------------------------------------------------------------------------

  /** A delete at a lone head: it writes the emptied head, or finds nothing. */
  lemma DeleteHeadShape(cfg: Config, recs0: seq<seq<Rec>>, s: State, g: Ghost, t: nat, s': State)
    requires Inv(cfg, recs0, s, g) && t < |s.tasks| && s.tasks[t].pc.DelRead?
    requires TaskNext(cfg, s, t) == Some(s') && s.tasks[t].pc.buf.next == NULL
    ensures var b, key, buf := CurBucket(cfg, |s.tasks|, t, s.tasks[t]), CurItem(cfg, |s.tasks|, t, s.tasks[t]).key,
            s.tasks[t].pc.buf;
            && cfg.op == DeleteOp && b < |cfg.heads| == |g.view.recs|
            && At(g.vmem, cfg.heads[b], buf)
            && if Matches(buf, key)
               then |g.view.recs[b]| == 1 && IndexOf(g.view.recs[b], key) == 0
                    && s' == Move(s.(mem := s.mem[cfg.heads[b] := buf.(keyLen := 0)]), t, Release(NULL))
               else !Present(g.view.recs[b], key) && s' == Move(s, t, Release(NULL))
  {
    hide HeapPart, TasksOk, BucketLocksOk, AllocLockOk, ResLockOk, NodesOk, MemoryPart, LogOk, ResultsOk, PhaseOk,
         TaskNext, TaskOk, Block, ChainOk, CurMutex, BucketOf;
    WorkContext(cfg, recs0, s, g, t);
    HeadRead(cfg, recs0, s, g, t);
    var b := CurBucket(cfg, |s.tasks|, t, s.tasks[t]);
    SearchStep(g.vmem, g.view.chains[b], g.view.recs[b], CurItem(cfg, |s.tasks|, t, s.tasks[t]).key, 0);
  }

  lemma RemoveOnly(c: seq<Rec>, key: Key)
    requires |c| == 1 && IndexOf(c, key) == 0
    ensures RemoveRec(c, key) == []
  {
  }

  lemma DeleteHeadStep(cfg: Config, recs0: seq<seq<Rec>>, s: State, g: Ghost, t: nat, s': State) returns (g': Ghost)
    requires Inv(cfg, recs0, s, g) && t < |s.tasks| && s.tasks[t].pc.DelRead?
    requires TaskNext(cfg, s, t) == Some(s') && s.tasks[t].pc.buf.next == NULL
    ensures Inv(cfg, recs0, s', g')
  {
    hide HeapPart, TasksOk, BucketLocksOk, AllocLockOk, ResLockOk, NodesOk, MemoryPart, LogOk, ResultsOk, PhaseOk,
         TaskNext, TaskOk, HeapOk, ChainOk, CurItem, BucketOf, RemoveRec, IndexOf;
    HeadRead(cfg, recs0, s, g, t);
    DeleteHeadShape(cfg, recs0, s, g, t, s');
    var b, it := CurBucket(cfg, |s.tasks|, t, s.tasks[t]), CurItem(cfg, |s.tasks|, t, s.tasks[t]);
    var head, buf := cfg.heads[b], s.tasks[t].pc.buf;
    if Matches(buf, it.key) {
      HeapOf(cfg, g);
      HeadOwner(g.vmem, cfg.heads, g.view, b);
      EmptyHead(g.vmem, cfg.heads, g.view, b);
      RemoveOnly(g.view.recs[b], it.key);
      DeleteApplied(cfg, g.view.recs, b, it);
      g' := OneWrite(cfg, recs0, s, s', g, g.view.(recs := g.view.recs[b := []]), t, Metadata(0, 0), head,
                     buf.(keyLen := 0));
    } else {
      g' := NoWrite(cfg, recs0, s, s', g, t);
    }
  }

  lemma DeleteApplied(cfg: Config, recs: seq<seq<Rec>>, b: nat, it: Item)
    requires cfg.size > 0 && cfg.op == DeleteOp && b == BucketOf(cfg, it.key) && b < |recs|
    ensures ApplyOne(cfg, recs, it, Metadata(0, 0)) == recs[b := RemoveRec(recs[b], it.key)]
  {
  }

  /** A delete that copies the second node over the head. */
  lemma DeleteCopyShape(cfg: Config, recs0: seq<seq<Rec>>, s: State, g: Ghost, t: nat, s': State)
    requires Inv(cfg, recs0, s, g) && t < |s.tasks| && s.tasks[t].pc.DelCopy?
    requires TaskNext(cfg, s, t) == Some(s')
    ensures var b, key, buf := CurBucket(cfg, |s.tasks|, t, s.tasks[t]), CurItem(cfg, |s.tasks|, t, s.tasks[t]).key,
            s.tasks[t].pc.buf;
            && cfg.op == DeleteOp && b < |cfg.heads| && b < |g.view.recs| && b < |g.view.chains|
            && |g.view.recs[b]| == |g.view.chains[b]| >= 2 && g.view.recs[b][0].key == key
            && At(g.vmem, g.view.chains[b][1], buf)
            && s' == Move(s.(mem := s.mem[cfg.heads[b] := buf]), t, Release(NULL))
  {
    hide HeapPart, TasksOk, BucketLocksOk, AllocLockOk, ResLockOk, NodesOk, MemoryPart, LogOk, ResultsOk, PhaseOk,
         TaskNext, TaskOk, Block, ChainOk, CurMutex, BucketOf;
    WorkContext(cfg, recs0, s, g, t);
  }

  lemma RemoveFirst(c: seq<Rec>, key: Key)
    requires c != [] && c[0].key == key
    ensures RemoveRec(c, key) == c[1..]
  {
    IndexIs(c, key, 0);
  }

  lemma DeleteCopyStep(cfg: Config, recs0: seq<seq<Rec>>, s: State, g: Ghost, t: nat, s': State) returns (g': Ghost)
    requires Inv(cfg, recs0, s, g) && t < |s.tasks| && s.tasks[t].pc.DelCopy?
    requires TaskNext(cfg, s, t) == Some(s')
    ensures Inv(cfg, recs0, s', g')
  {
    hide HeapPart, TasksOk, BucketLocksOk, AllocLockOk, ResLockOk, NodesOk, MemoryPart, LogOk, ResultsOk, PhaseOk,
         TaskNext, TaskOk, HeapOk, ChainOk, CurItem, BucketOf, RemoveRec, IndexOf;
    HeadRead(cfg, recs0, s, g, t);
    DeleteCopyShape(cfg, recs0, s, g, t, s');
    var k, b, it := s.tasks[t], CurBucket(cfg, |s.tasks|, t, s.tasks[t]), CurItem(cfg, |s.tasks|, t, s.tasks[t]);
    var head, ps, c := cfg.heads[b], g.view.chains[b], g.view.recs[b];
    HeapOf(cfg, g);
    HeadOwner(g.vmem, cfg.heads, g.view, b);
    RemoveFirst(c, it.key);
    CopyToHead(g.vmem, cfg.heads, g.view, b);
    DeleteApplied(cfg, g.view.recs, b, it);
    var view := g.view.(chains := g.view.chains[b := [head] + ps[2..]], recs := g.view.recs[b := c[1..]]);
    g' := OneWrite(cfg, recs0, s, s', g, view, t, Metadata(0, 0), head, k.pc.buf);
  }

  /** A delete's last step in a chain: it rewrites the link to the matching node, or finds nothing. */
  lemma DeleteSpliceShape(cfg: Config, recs0: seq<seq<Rec>>, s: State, g: Ghost, t: nat, s': State) returns (i: nat)
    requires Inv(cfg, recs0, s, g) && t < |s.tasks| && s.tasks[t].pc.DelScan?
    requires TaskNext(cfg, s, t) == Some(s') && |s'.tasks| == |s.tasks| && s'.tasks[t].pc.Release?
    ensures var b, key := CurBucket(cfg, |s.tasks|, t, s.tasks[t]), CurItem(cfg, |s.tasks|, t, s.tasks[t]).key;
            && cfg.op == DeleteOp && b < |cfg.heads| == |g.view.recs| == |g.view.chains|
            && ScanAt(g.vmem, g.view.chains[b], g.view.recs[b], key, i, s.tasks[t].pc.lastPtr, s.tasks[t].pc.last,
                      s.tasks[t].pc.buf)
            && if Matches(s.tasks[t].pc.buf, key)
               then IndexOf(g.view.recs[b], key) == i < |g.view.recs[b]|
                    && s' == Move(s.(mem := s.mem[s.tasks[t].pc.lastPtr := Spliced(s.tasks[t].pc)]), t, Release(NULL))
               else !Present(g.view.recs[b], key) && s' == Move(s, t, Release(NULL))
  {
    hide HeapPart, TasksOk, BucketLocksOk, AllocLockOk, ResLockOk, NodesOk, MemoryPart, LogOk, ResultsOk, PhaseOk,
         TaskNext, TaskOk, Block, ChainOk, CurMutex, BucketOf;
    WorkContext(cfg, recs0, s, g, t);
    HeadRead(cfg, recs0, s, g, t);
    var k := s.tasks[t];
    var b, key := CurBucket(cfg, |s.tasks|, t, k), CurItem(cfg, |s.tasks|, t, k).key;
    i :| ScanAt(g.vmem, g.view.chains[b], g.view.recs[b], key, i, k.pc.lastPtr, k.pc.last, k.pc.buf);
    SearchStep(g.vmem, g.view.chains[b], g.view.recs[b], key, i);
  }

  /** The predecessor of the node a scan is at, linked past it. */
  function Spliced(pc: Pc): Entry
    requires pc.DelScan?
  {
    pc.last.(next := pc.buf.next)
  }

  lemma DeleteSpliceStep(cfg: Config, recs0: seq<seq<Rec>>, s: State, g: Ghost, t: nat, s': State) returns (g': Ghost)
    requires Inv(cfg, recs0, s, g) && t < |s.tasks| && s.tasks[t].pc.DelScan?
    requires TaskNext(cfg, s, t) == Some(s') && |s'.tasks| == |s.tasks| && s'.tasks[t].pc.Release?
    ensures Inv(cfg, recs0, s', g')
  {
    hide HeapPart, TasksOk, BucketLocksOk, AllocLockOk, ResLockOk, NodesOk, MemoryPart, LogOk, ResultsOk, PhaseOk,
         TaskNext, TaskOk, HeapOk, ChainOk, CurItem, BucketOf, IndexOf;
    var i := DeleteSpliceShape(cfg, recs0, s, g, t, s');
    var k, b, it := s.tasks[t], CurBucket(cfg, |s.tasks|, t, s.tasks[t]), CurItem(cfg, |s.tasks|, t, s.tasks[t]);
    var ps, c := g.view.chains[b], g.view.recs[b];
    if Matches(k.pc.buf, it.key) {
      CleanRead(cfg, s, g, t, i - 1);
      HeapOf(cfg, g);
      NodeOwner(g.vmem, cfg.heads, g.view, b, i - 1);
      SpliceOut(g.vmem, cfg.heads, g.view, b, i);
      DeleteApplied(cfg, g.view.recs, b, it);
      var view := g.view.(chains := g.view.chains[b := ps[..i] + ps[i + 1..]],
                          recs := g.view.recs[b := c[..i] + c[i + 1..]]);
      g' := OneWrite(cfg, recs0, s, s', g, view, t, Metadata(0, 0), k.pc.lastPtr, Spliced(k.pc));
    } else {
      g' := NoWrite(cfg, recs0, s, s', g, t);
    }
  }

  lemma NodeOwner(mem: Memory, heads: seq<Addr>, v: View, b: nat, i: nat)
    requires HeapOk(mem, heads, v) && b < |heads| && i < |v.chains[b]|
    ensures v.chains[b][i] in v.owner && v.owner[v.chains[b][i]] == b
  {
  }
}
