/** What holds in every state a launch can reach, whatever the interleaving. */
module TaskletInvariant {
  import opened Util
  import opened Entries
  import opened BucketSpec
  import opened ChainHeap
  import opened IndexLayout
  import opened PrimaryIndex
  import opened Interleavings
  import opened Tasklets

  /** Bookkeeping beside a state. `vmem` is the memory with every half-done insert undone, `view` its
      chains and records; `dirty` maps a head whose new node is not yet written to the tasklet at work;
      `log` lists the elements that have taken effect, `metas` the metadata each insert found in its
      head; `rlog` says which tasklet wrote each result. */
  datatype Ghost = Ghost(vmem: Memory, view: View, dirty: map<Addr, nat>,
                         log: seq<Ev<Item>>, metas: seq<Metadata>, rlog: seq<Ev<Res>>)

  // --- The sequential meaning of a log ----------------------------------------------------

  ghost function SlotOf(cfg: Config): nat {
    var s := FindIndex(cfg.descs, cfg.id);
    if s.Some? then s.value else 0
  }

  ghost function BucketOf(cfg: Config, key: Key): nat
    requires cfg.size > 0
  {
    BucketAt(SlotOf(cfg), cfg.size, LocalBucket(key, cfg.size))
  }

  /** The effect of one element on the buckets' record lists. */
  ghost function ApplyOne(cfg: Config, recs: seq<seq<Rec>>, it: Item, meta: Metadata): (r: seq<seq<Rec>>)
    requires cfg.size > 0
    ensures |r| == |recs|
  {
    var b := BucketOf(cfg, it.key);
    if b >= |recs| then recs else
      match cfg.op
      case InsertOp => recs[b := InsertRec(recs[b], Rec(it.key, it.arg, meta))]
      case DeleteOp => recs[b := RemoveRec(recs[b], it.key)]
      case LookupOp => recs
  }

  /** The elements of a log applied one after the other. */
  ghost function Apply(cfg: Config, recs: seq<seq<Rec>>, log: seq<Ev<Item>>, metas: seq<Metadata>): (r: seq<seq<Rec>>)
    requires cfg.size > 0 && |metas| == |log|
    ensures |r| == |recs|
    decreases |log|
  {
    if log == [] then recs else
      var n := |log| - 1;
      ApplyOne(cfg, Apply(cfg, recs, log[..n], metas[..n]), log[n].what, metas[n])
  }

  lemma ApplyAppend(cfg: Config, recs: seq<seq<Rec>>, log: seq<Ev<Item>>, metas: seq<Metadata>, e: Ev<Item>,
                    m: Metadata)
    requires cfg.size > 0 && |metas| == |log|
    ensures Apply(cfg, recs, log + [e], metas + [m]) == ApplyOne(cfg, Apply(cfg, recs, log, metas), e.what, m)
  {
    assert (log + [e])[..|log|] == log && (metas + [m])[..|log|] == metas;
  }

  /** What a lookup of each element answers. */
  ghost function Answers(cfg: Config, recs: seq<seq<Rec>>, items: seq<Item>): (r: seq<Res>)
    requires cfg.size > 0
    ensures |r| == |items|
    ensures forall i :: 0 <= i < |r| ==> r[i] == Answer(cfg, recs, items[i])
  {
    seq(|items|, i requires 0 <= i < |items| => Answer(cfg, recs, items[i]))
  }

  ghost function Answer(cfg: Config, recs: seq<seq<Rec>>, it: Item): Res
    requires cfg.size > 0
  {
    var b := BucketOf(cfg, it.key);
    Res(it.arg, if b < |recs| then ValueOf(recs[b], it.key) else 0)
  }

  // --- Tasklets ---------------------------------------------------------------------------

  predicate Working(pc: Pc) {
    || pc.Acquire? || pc.Locked? || pc.InsRead? || pc.InsAllocHeld? || pc.InsAllocCur? || pc.InsAllocAvail?
    || pc.InsAllocDone? || pc.InsLink? || pc.InsFill? || pc.DelRead? || pc.DelCopy? || pc.DelScan? || pc.FindScan?
    || pc.Release? || pc.Fetch?
  }

  predicate HoldsBucket(pc: Pc) {
    Working(pc) && !pc.Acquire? && !pc.Fetch?
  }

  predicate HoldsAlloc(pc: Pc) {
    pc.InsAllocHeld? || pc.InsAllocCur? || pc.InsAllocAvail? || pc.InsAllocDone?
  }

  predicate HoldsResults(pc: Pc) {
    pc.FlushHeld? || pc.FlushWritten? || pc.FlushDone?
  }

  predicate Flushing(pc: Pc) {
    pc.WantFlush? || HoldsResults(pc)
  }

  predicate BeforeWork(pc: Pc) {
    pc.AtStart? || pc.AtBarrier1?
  }

  predicate AfterWork(pc: Pc) {
    pc.AtBarrier2? || pc.Finished?
  }

  /** A node handed out and not yet part of a chain. */
  predicate HasNode(pc: Pc) {
    pc.InsAllocAvail? || pc.InsAllocDone? || pc.InsLink? || pc.InsFill?
  }

  ghost function Slice(cfg: Config, p: nat, t: nat): seq<Item>
    requires t < p
  {
    Block(cfg.items, p, t)
  }

  const NO_ITEM: Item := Item([0], 0)

  ghost function CurItem(cfg: Config, p: nat, t: nat, k: Task): Item
    requires t < p
  {
    if 1 <= k.handled <= |Slice(cfg, p, t)| then Slice(cfg, p, t)[k.handled - 1] else NO_ITEM
  }

  ghost function CurBucket(cfg: Config, p: nat, t: nat, k: Task): nat
    requires t < p && cfg.size > 0
  {
    BucketOf(cfg, CurItem(cfg, p, t, k).key)
  }

  ghost function CurMutex(cfg: Config, p: nat, t: nat, k: Task): nat
    requires t < p && ConfigOk(cfg)
  {
    cfg.pool[LocalBucket(CurItem(cfg, p, t, k).key, cfg.size)]
  }

  predicate At(mem: Memory, a: Addr, e: Entry) {
    a in mem && mem[a] == e
  }

  /** `i` is a position in the chain before which the key does not occur. */
  ghost predicate NotBefore(c: seq<Rec>, i: nat, key: Key) {
    forall j :: 0 <= j < i && j < |c| ==> c[j].key != key
  }

  ghost predicate ScanAt(vmem: Memory, ps: seq<Addr>, c: seq<Rec>, key: Key, i: nat, lastPtr: Addr, last: Entry,
                         buf: Entry) {
    1 <= i < |ps| && lastPtr == ps[i - 1] && At(vmem, lastPtr, last) && At(vmem, ps[i], buf) && NotBefore(c, i, key)
  }

  ghost predicate FindAt(vmem: Memory, ps: seq<Addr>, c: seq<Rec>, key: Key, i: nat, found: Addr, buf: Entry) {
    i < |ps| && found == ps[i] && At(vmem, found, buf) && NotBefore(c, i, key)
  }

  ghost predicate FoundOk(vmem: Memory, c: seq<Rec>, key: Key, res: Addr) {
    if res == NULL then !Present(c, key) else res in vmem && Present(c, key) && vmem[res].val == ValueOf(c, key)
  }

  /** What a tasklet working on `key` knows about its bucket, given as chain `ps` and records `c`. */
  ghost predicate PcOk(op: OpType, vmem: Memory, ps: seq<Addr>, c: seq<Rec>, key: Key, pc: Pc) {
    match pc
    case Acquire => true
    case Locked => true
    case InsRead(buf) => op == InsertOp && |ps| > 0 && At(vmem, ps[0], buf)
    case InsAllocHeld(buf) => op == InsertOp && |ps| > 0 && At(vmem, ps[0], buf) && buf.keyLen != 0
    case InsAllocCur(buf, _) => op == InsertOp && |ps| > 0 && At(vmem, ps[0], buf) && buf.keyLen != 0
    case InsAllocAvail(buf, _) => op == InsertOp && |ps| > 0 && At(vmem, ps[0], buf) && buf.keyLen != 0
    case InsAllocDone(buf, _) => op == InsertOp && |ps| > 0 && At(vmem, ps[0], buf) && buf.keyLen != 0
    case InsLink(buf, _) => op == InsertOp && |ps| > 0 && At(vmem, ps[0], buf) && buf.keyLen != 0
    case InsFill(buf, _) => op == InsertOp && |ps| > 0 && At(vmem, ps[0], buf) && buf.keyLen != 0
    case DelRead(buf) => op == DeleteOp && |ps| > 0 && At(vmem, ps[0], buf)
    case DelCopy(buf) => op == DeleteOp && |c| >= 2 && |ps| == |c| && At(vmem, ps[1], buf) && c[0].key == key
    case DelScan(lastPtr, last, buf) => op == DeleteOp
         && exists i: nat :: ScanAt(vmem, ps, c, key, i, lastPtr, last, buf)
    case FindScan(found, buf) => op == LookupOp && exists i: nat :: FindAt(vmem, ps, c, key, i, found, buf)
    case Release(res) => op == LookupOp ==> FoundOk(vmem, c, key, res)
    case Fetch(res) => op == LookupOp && FoundOk(vmem, c, key, res)
    case _ => false
  }

  ghost predicate TaskOk(cfg: Config, vmem: Memory, view: View, p: nat, t: nat, k: Task)
    requires t < p && cfg.size > 0
  {
    var n := |Slice(cfg, p, t)|;
    && k.handled <= n
    && |k.cache| <= RESULT_CACHE_SIZE && (cfg.op != LookupOp ==> k.cache == [])
    && (BeforeWork(k.pc) ==> k.handled == 0 && k.cache == [])
    && (AfterWork(k.pc) ==> k.cache == [] && k.handled == if FindIndex(cfg.descs, cfg.id).Some? then n else 0)
    && (k.pc.Next? ==> |k.cache| < RESULT_CACHE_SIZE)
    && (k.pc.Next? && FindIndex(cfg.descs, cfg.id).None? ==> k.handled == 0 && k.cache == [])
    && (Flushing(k.pc) ==> cfg.op == LookupOp && k.cache != [] && FindIndex(cfg.descs, cfg.id).Some?)
    && (Working(k.pc) ==>
          && |k.cache| < RESULT_CACHE_SIZE && 1 <= k.handled && FindIndex(cfg.descs, cfg.id).Some?
          && CurBucket(cfg, p, t, k) < |view.chains| && CurBucket(cfg, p, t, k) < |view.recs|
          && PcOk(cfg.op, vmem, view.chains[CurBucket(cfg, p, t, k)], view.recs[CurBucket(cfg, p, t, k)],
                  CurItem(cfg, p, t, k).key, k.pc))
  }

  /** Elements of an insert or delete batch that have taken effect. */
  ghost function Committed(cfg: Config, k: Task): nat {
    if cfg.op == LookupOp then 0
    else if Working(k.pc) && !k.pc.Release? && k.handled > 0 then k.handled - 1
    else k.handled
  }

  /** Elements of a lookup batch that have been answered, and the answers not yet in the shared list. */
  ghost function Answered(k: Task): nat {
    if Working(k.pc) && k.handled > 0 then k.handled - 1 else k.handled
  }

  ghost function Unflushed(k: Task): seq<Res> {
    if k.pc.FlushDone? then [] else k.cache
  }

  // --- The invariant ----------------------------------------------------------------------

  ghost predicate TasksOk(cfg: Config, s: State, g: Ghost)
    requires cfg.size > 0
  {
    forall t :: 0 <= t < |s.tasks| ==> TaskOk(cfg, g.vmem, g.view, |s.tasks|, t, s.tasks[t])
  }

  ghost predicate HeapPart(cfg: Config, g: Ghost)
    requires cfg.size > 0
  {
    HeapOk(g.vmem, cfg.heads, g.view) && Homed(g.view.recs, cfg.size)
  }

  /** The mutex pool records exactly the tasklets inside their buckets. */
  ghost predicate BucketLocksOk(cfg: Config, s: State)
    requires ConfigOk(cfg)
  {
    var p := |s.tasks|;
    && (forall t :: 0 <= t < p && HoldsBucket(s.tasks[t].pc) ==>
          CurMutex(cfg, p, t, s.tasks[t]) in s.locks && s.locks[CurMutex(cfg, p, t, s.tasks[t])] == t)
    && (forall m :: m in s.locks ==>
          s.locks[m] < p && HoldsBucket(s.tasks[s.locks[m]].pc)
            && CurMutex(cfg, p, s.locks[m], s.tasks[s.locks[m]]) == m)
  }

  ghost predicate AllocLockOk(s: State) {
    && (forall t :: 0 <= t < |s.tasks| ==> (HoldsAlloc(s.tasks[t].pc) <==> s.allocLock == Some(t)))
    && (s.allocLock.Some? ==> s.allocLock.value < |s.tasks|)
  }

  ghost predicate ResLockOk(s: State) {
    && (forall t :: 0 <= t < |s.tasks| ==> (HoldsResults(s.tasks[t].pc) <==> s.resLock == Some(t)))
    && (s.resLock.Some? ==> s.resLock.value < |s.tasks|)
  }

  ghost predicate LocksOk(cfg: Config, s: State)
    requires ConfigOk(cfg)
  {
    BucketLocksOk(cfg, s) && AllocLockOk(s) && ResLockOk(s)
  }

  predicate Apart(a: Addr, b: Addr) {
    a + ENTRY_SIZE <= b || b + ENTRY_SIZE <= a
  }

  /** Nodes still to be asked for by one tasklet, at most. */
  ghost function Demand(cfg: Config, p: nat, t: nat, k: Task): int
    requires t < p
  {
    |Slice(cfg, p, t)| - k.handled +
    if k.pc.Acquire? || k.pc.Locked? || k.pc.InsRead? || k.pc.InsAllocHeld? || k.pc.InsAllocCur? then 1 else 0
  }

  ghost function TotalDemand(cfg: Config, tasks: seq<Task>, n: nat): int
    requires n <= |tasks|
  {
    if n == 0 then 0 else TotalDemand(cfg, tasks, n - 1) + Demand(cfg, |tasks|, n - 1, tasks[n - 1])
  }

  /** Space left once the allocation in progress has been booked. */
  ghost function RealAvail(s: State): int {
    if s.allocLock.Some? && s.allocLock.value < |s.tasks| && s.tasks[s.allocLock.value].pc.InsAllocAvail?
    then s.avail - ENTRY_SIZE else s.avail
  }

  /** Nodes: fresh, apart from each other and from all entries, and enough of them left. */
  ghost predicate NodesOk(cfg: Config, s: State, g: Ghost) {
    && ENTRY_SIZE <= s.cur
    && (forall a :: a in g.vmem ==> a + ENTRY_SIZE <= s.cur)
    && (forall t :: 0 <= t < |s.tasks| && s.tasks[t].pc.InsAllocCur? ==> s.tasks[t].pc.node == s.cur)
    && (forall t :: 0 <= t < |s.tasks| && HasNode(s.tasks[t].pc) ==>
          ENTRY_SIZE <= s.tasks[t].pc.node && s.tasks[t].pc.node + ENTRY_SIZE <= s.cur)
    && (forall t, a :: 0 <= t < |s.tasks| && HasNode(s.tasks[t].pc) && a in g.vmem ==> Apart(s.tasks[t].pc.node, a))
    && (forall t, u ::
          0 <= t < |s.tasks| && 0 <= u < |s.tasks| && t != u && HasNode(s.tasks[t].pc) && HasNode(s.tasks[u].pc) ==>
          Apart(s.tasks[t].pc.node, s.tasks[u].pc.node))
    && (cfg.op == InsertOp ==> RealAvail(s) >= ENTRY_SIZE * TotalDemand(cfg, s.tasks, |s.tasks|))
  }

  /** The real memory differs from `vmem` only at heads whose new node is still unwritten. */
  ghost predicate MemoryPart(cfg: Config, s: State, g: Ghost)
    requires cfg.size > 0
  {
    CleanOk(s.mem, g.vmem, g.dirty) && DirtyOk(cfg, s, g.dirty) && LinkedOk(cfg, s)
  }

  ghost predicate CleanOk(mem: Memory, vmem: Memory, dirty: map<Addr, nat>) {
    mem.Keys == vmem.Keys && forall a :: a in mem && a !in dirty ==> mem[a] == vmem[a]
  }

  ghost predicate DirtyOk(cfg: Config, s: State, dirty: map<Addr, nat>)
    requires cfg.size > 0
  {
    forall a :: a in dirty ==> dirty[a] < |s.tasks| && s.tasks[dirty[a]].pc.InsFill? && HeadOf(cfg, s, dirty[a], a)
  }

  ghost predicate LinkedOk(cfg: Config, s: State)
    requires cfg.size > 0
  {
    forall t :: 0 <= t < |s.tasks| && s.tasks[t].pc.InsFill? ==> Linked(cfg, s, t)
  }

  /** `a` is the head of the bucket tasklet t works on. */
  ghost predicate HeadOf(cfg: Config, s: State, t: nat, a: Addr)
    requires t < |s.tasks| && cfg.size > 0
  {
    var b := CurBucket(cfg, |s.tasks|, t, s.tasks[t]);
    b < |cfg.heads| && cfg.heads[b] == a
  }

  /** Tasklet t's head links to its new node already. */
  ghost predicate Linked(cfg: Config, s: State, t: nat)
    requires t < |s.tasks| && s.tasks[t].pc.InsFill? && cfg.size > 0
  {
    var b := CurBucket(cfg, |s.tasks|, t, s.tasks[t]);
    b < |cfg.heads| && At(s.mem, cfg.heads[b], s.tasks[t].pc.buf.(next := s.tasks[t].pc.node))
  }

  /** The records are those of the initial state after the logged elements, and every tasklet has
      logged exactly the elements of its slice that it has dealt with. */
  ghost predicate LogOk(cfg: Config, recs0: seq<seq<Rec>>, tasks: seq<Task>, g: Ghost)
    requires cfg.size > 0
  {
    && |g.metas| == |g.log| && Below(g.log, |tasks|)
    && g.view.recs == Apply(cfg, recs0, g.log, g.metas)
    && (forall t :: 0 <= t < |tasks| ==>
          Committed(cfg, tasks[t]) <= |Slice(cfg, |tasks|, t)|
          && Proj(g.log, t) == Slice(cfg, |tasks|, t)[..Committed(cfg, tasks[t])])
  }

  /** The counted part of the shared list is what the log of results says; a written block waits behind it. */
  ghost predicate SharedOk(s: State, rlog: seq<Ev<Res>>) {
    && Below(rlog, |s.tasks|)
    && (s.master == MPrepare ==> rlog == [])
    && (s.master != MPrepare ==> s.nnz <= |s.data| && s.data[..s.nnz] == Whats(rlog))
    && (forall t :: 0 <= t < |s.tasks| && s.tasks[t].pc.FlushWritten? ==>
          s.nnz + |s.tasks[t].cache| <= |s.data| && s.data[s.nnz..s.nnz + |s.tasks[t].cache|] == s.tasks[t].cache)
  }

  /** Shared results plus a tasklet's cached ones answer exactly the elements it has dealt with. */
  ghost predicate AnsweredOk(cfg: Config, recs0: seq<seq<Rec>>, tasks: seq<Task>, rlog: seq<Ev<Res>>)
    requires cfg.size > 0
  {
    forall t :: 0 <= t < |tasks| ==>
      Answered(tasks[t]) <= |Slice(cfg, |tasks|, t)|
      && Proj(rlog, t) + Unflushed(tasks[t]) == Answers(cfg, recs0, Slice(cfg, |tasks|, t)[..Answered(tasks[t])])
  }

  ghost predicate ResultsOk(cfg: Config, recs0: seq<seq<Rec>>, s: State, g: Ghost)
    requires cfg.size > 0
  {
    cfg.op == LookupOp ==> SharedOk(s, g.rlog) && AnsweredOk(cfg, recs0, s.tasks, g.rlog)
  }

  /** Nobody works before the master has prepared, and nobody merges before all have worked. */
  ghost predicate PhaseOk(cfg: Config, s: State) {
    && (s.master != MPrepare ==> s.index == FindIndex(cfg.descs, cfg.id) && s.batch == cfg.items)
    && (s.master != MPrepare && s.master != MWait1 ==> AllArrived1(s))
    && (forall t :: 0 <= t < |s.tasks| && !BeforeWork(s.tasks[t].pc) ==> AllArrived1(s))
    && (s.master == MMerge || s.master == MDone ==> AllArrived2(s))
    && (forall t :: 0 <= t < |s.tasks| && s.tasks[t].pc == Finished ==> AllArrived2(s))
    && (s.master == MDone && cfg.op == LookupOp ==> s.resultSize == s.nnz)
  }

  ghost predicate Inv(cfg: Config, recs0: seq<seq<Rec>>, s: State, g: Ghost) {
    && ConfigOk(cfg) && |s.tasks| > 0 && |recs0| == |cfg.heads|
    && HeapPart(cfg, g)
    && TasksOk(cfg, s, g)
    && LocksOk(cfg, s)
    && NodesOk(cfg, s, g)
    && MemoryPart(cfg, s, g)
    && LogOk(cfg, recs0, s.tasks, g)
    && ResultsOk(cfg, recs0, s, g)
    && PhaseOk(cfg, s)
  }
}
