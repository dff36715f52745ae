/** One DPU launch as a step system: a master and p slave tasklets, two barriers, the bucket
    mutex pool, the allocator and result mutexes, and every MRAM access as a step of its own. */
module Tasklets {
  import opened Util
  import opened Entries
  import opened ChainHeap
  import opened IndexLayout
  import opened PrimaryIndex

  datatype OpType = LookupOp | InsertOp | DeleteOp

  /** One batch element; `arg` is the value to insert, or the key_id of a lookup. */
  datatype Item = Item(key: Key, arg: nat)

  datatype Res = Res(row: nat, val: nat)

  const RESULT_CACHE_SIZE: nat := 16

  /** What the host pushed and what the DPU holds at launch: `heads` are the bucket heads of all
      indexes, `pool` maps a bucket of an index to its mutex. */
  datatype Config = Config(op: OpType, descs: seq<IndexDesc>, heads: seq<Addr>, size: nat, pool: seq<nat>,
                           id: int, items: seq<Item>)

  ghost predicate ConfigOk(cfg: Config) {
    cfg.size > 0 && |cfg.pool| == cfg.size && |cfg.heads| == |cfg.descs| * cfg.size
  }

  datatype Pc =
    | AtStart | AtBarrier1 | Next | Acquire | Locked
    | InsRead(buf: Entry) | InsAllocHeld(buf: Entry)
    | InsAllocCur(buf: Entry, node: Addr) | InsAllocAvail(buf: Entry, node: Addr) | InsAllocDone(buf: Entry, node: Addr)
    | InsLink(buf: Entry, node: Addr) | InsFill(buf: Entry, node: Addr)
    | DelRead(buf: Entry) | DelCopy(buf: Entry) | DelScan(lastPtr: Addr, last: Entry, buf: Entry)
    | FindScan(found: Addr, buf: Entry) | Release(res: Addr) | Fetch(res: Addr)
    | WantFlush | FlushHeld | FlushWritten | FlushDone
    | AtBarrier2 | Finished

  datatype Task = Task(pc: Pc, handled: nat, cache: seq<Res>)

  datatype MasterPc = MPrepare | MWait1 | MRun | MWait2 | MMerge | MDone

  datatype State = State(
    mem: Memory, cur: Addr, avail: nat,
    locks: map<nat, nat>, allocLock: Option<nat>, resLock: Option<nat>,
    data: seq<Res>, nnz: nat, resultSize: nat,
    index: Option<nat>, batch: seq<Item>,
    master: MasterPc, tasks: seq<Task>)

  predicate AllArrived1(s: State) {
    s.master != MPrepare && forall t :: 0 <= t < |s.tasks| ==> s.tasks[t].pc != AtStart
  }

  predicate AllArrived2(s: State) {
    (s.master == MWait2 || s.master == MMerge || s.master == MDone)
    && forall t :: 0 <= t < |s.tasks| ==> s.tasks[t].pc == AtBarrier2 || s.tasks[t].pc == Finished
  }

  /** The master: prepare, barrier1, barrier2, merge. */
  function MasterNext(cfg: Config, s: State): Option<State> {
    match s.master
    case MPrepare =>
      Some(s.(index := FindIndex(cfg.descs, cfg.id), batch := cfg.items,
              nnz := if cfg.op == LookupOp then 0 else s.nnz, master := MWait1))
    case MWait1 => if AllArrived1(s) then Some(s.(master := MRun)) else None
    case MRun => Some(s.(master := MWait2))
    case MWait2 => if AllArrived2(s) then Some(s.(master := MMerge)) else None
    case MMerge => Some(s.(resultSize := if cfg.op == LookupOp then s.nnz else s.resultSize, master := MDone))
    case MDone => None
  }

  function Move(s: State, t: nat, pc: Pc): (s': State)
    requires t < |s.tasks|
  {
    s.(tasks := s.tasks[t := s.tasks[t].(pc := pc)])
  }

  /** The result block written over the list from position `at`. */
  function Overlay(data: seq<Res>, at: nat, block: seq<Res>): seq<Res>
    requires at <= |data|
  {
    data[..at] + block + if at + |block| <= |data| then data[at + |block|..] else []
  }

  /** A delete that has read a head with a successor goes on reading. */
  predicate ReadsOn(pc: Pc) {
    pc.DelRead? && pc.buf.next != NULL
  }

  /** One step of a slave tasklet; None when it has to wait or has nothing left to do. */
  function TaskNext(cfg: Config, s: State, t: nat): (r: Option<State>)
    requires t < |s.tasks|
    ensures r.Some? ==> |r.value.tasks| == |s.tasks|
    ensures r.Some? && ReadsOn(s.tasks[t].pc) ==> !r.value.tasks[t].pc.Release?
  {
    var k := s.tasks[t];
    match k.pc
    case AtStart => Some(Move(s, t, AtBarrier1))
    case AtBarrier1 => if AllArrived1(s) then Some(Move(s, t, Next)) else None
    case Next =>
      if s.index.None? then Some(Move(s, t, AtBarrier2))
      else if k.handled < |Block(s.batch, |s.tasks|, t)| then
        Some(s.(tasks := s.tasks[t := k.(pc := Acquire, handled := k.handled + 1)]))
      else if k.cache != [] then Some(Move(s, t, WantFlush))
      else Some(Move(s, t, AtBarrier2))
    case WantFlush => if s.resLock.None? then Some(Move(s.(resLock := Some(t)), t, FlushHeld)) else None
    case FlushHeld =>
      if s.nnz <= |s.data| then Some(Move(s.(data := Overlay(s.data, s.nnz, k.cache)), t, FlushWritten)) else None
    case FlushWritten => Some(Move(s.(nnz := s.nnz + |k.cache|), t, FlushDone))
    case FlushDone => Some(s.(resLock := None, tasks := s.tasks[t := k.(pc := Next, cache := [])]))
    case AtBarrier2 => if AllArrived2(s) then Some(Move(s, t, Finished)) else None
    case Finished => None
    case _ =>
      var slice := Block(s.batch, |s.tasks|, t);
      if s.index.None? || !(1 <= k.handled <= |slice|) || cfg.size == 0 || |cfg.pool| != cfg.size then None
      else
        var it := slice[k.handled - 1];
        var b := BucketAt(s.index.value, cfg.size, LocalBucket(it.key, cfg.size));
        if b >= |cfg.heads| then None
        else OpNext(cfg, s, t, it, cfg.heads[b], cfg.pool[LocalBucket(it.key, cfg.size)])
  }

  /** The buffer turned into the entry of an inserted element; metadata stays what it was. */
  function Filled(buf: Entry, it: Item, next: Addr): Entry {
    buf.(bytes := StoreKey(buf.bytes, it.key), keyLen := |it.key|, val := it.arg, next := next)
  }

  /** One step while working on element `it`, whose bucket head is `head` and bucket mutex `mutex`. */
  function OpNext(cfg: Config, s: State, t: nat, it: Item, head: Addr, mutex: nat): (r: Option<State>)
    requires t < |s.tasks|
    ensures r.Some? ==> |r.value.tasks| == |s.tasks|
    ensures r.Some? && ReadsOn(s.tasks[t].pc) ==> !r.value.tasks[t].pc.Release?
  {
    match s.tasks[t].pc
    case Acquire => if mutex !in s.locks then Some(Move(s.(locks := s.locks[mutex := t]), t, Locked)) else None
    case Locked =>
      if head !in s.mem then None else
      (match cfg.op
       case InsertOp => Some(Move(s, t, InsRead(s.mem[head])))
       case DeleteOp => Some(Move(s, t, DelRead(s.mem[head])))
       case LookupOp => Some(Move(s, t, FindScan(head, s.mem[head]))))
    case InsRead(buf) =>
      if buf.keyLen == 0 then Some(Move(s.(mem := s.mem[head := Filled(buf, it, NULL)]), t, Release(NULL)))
      else if s.allocLock.None? then Some(Move(s.(allocLock := Some(t)), t, InsAllocHeld(buf)))
      else None
    case InsAllocHeld(buf) =>
      Some(Move(s, t, if s.avail < ENTRY_SIZE then InsAllocDone(buf, NULL) else InsAllocCur(buf, s.cur)))
    case InsAllocCur(buf, node) => Some(Move(s.(cur := s.cur + ENTRY_SIZE), t, InsAllocAvail(buf, node)))
    case InsAllocAvail(buf, node) =>
      if s.avail < ENTRY_SIZE then None else Some(Move(s.(avail := s.avail - ENTRY_SIZE), t, InsAllocDone(buf, node)))
    case InsAllocDone(buf, node) => Some(Move(s.(allocLock := None), t, InsLink(buf, node)))
    case InsLink(buf, node) => Some(Move(s.(mem := s.mem[head := buf.(next := node)]), t, InsFill(buf, node)))
    case InsFill(buf, node) => Some(Move(s.(mem := s.mem[node := Filled(buf, it, buf.next)]), t, Release(NULL)))
    case DelRead(buf) =>
      if Matches(buf, it.key) && buf.next == NULL then
        Some(Move(s.(mem := s.mem[head := buf.(keyLen := 0)]), t, Release(NULL)))
      else if buf.next == NULL then Some(Move(s, t, Release(NULL)))
      else if buf.next !in s.mem then None
      else
        Some(Move(s, t, if Matches(buf, it.key) then DelCopy(s.mem[buf.next]) else DelScan(head, buf, s.mem[buf.next])))
    case DelCopy(buf) => Some(Move(s.(mem := s.mem[head := buf]), t, Release(NULL)))
    case DelScan(lastPtr, last, buf) =>
      if Matches(buf, it.key) then Some(Move(s.(mem := s.mem[lastPtr := last.(next := buf.next)]), t, Release(NULL)))
      else if buf.next == NULL then Some(Move(s, t, Release(NULL)))
      else if buf.next !in s.mem then None
      else Some(Move(s, t, DelScan(last.next, buf, s.mem[buf.next])))
    case FindScan(found, buf) =>
      if Matches(buf, it.key) then Some(Move(s, t, Release(found)))
      else if buf.next == NULL then Some(Move(s, t, Release(NULL)))
      else if buf.next !in s.mem then None
      else Some(Move(s, t, FindScan(buf.next, s.mem[buf.next])))
    case Release(res) =>
      Some(Move(s.(locks := s.locks - {mutex}), t, if cfg.op == LookupOp then Fetch(res) else Next))
    case Fetch(res) =>
      if res != NULL && res !in s.mem then None else
      var cache := s.tasks[t].cache + [Res(it.arg, if res == NULL then 0 else s.mem[res].val)];
      var pc := if |cache| >= RESULT_CACHE_SIZE then WantFlush else Next;
      Some(s.(tasks := s.tasks[t := s.tasks[t].(pc := pc, cache := cache)]))
    case _ => None
  }

  /** A step of tasklet `who`: 0 is the master, the rest are slaves. */
  function Step(cfg: Config, s: State, who: nat): Option<State> {
    if who == 0 then MasterNext(cfg, s)
    else if who - 1 < |s.tasks| then TaskNext(cfg, s, who - 1)
    else None
  }

  /** A launch state: no lock held, every tasklet at its beginning. Index pointer, batch pointer and
      result list are whatever the previous launch left. */
  ghost predicate Launch(s: State) {
    && s.locks == map[] && s.allocLock == None && s.resLock == None
    && s.master == MPrepare && |s.tasks| > 0
    && forall t :: 0 <= t < |s.tasks| ==> s.tasks[t] == Task(AtStart, 0, [])
  }

  ghost predicate AllDone(s: State) {
    s.master == MDone && forall t :: 0 <= t < |s.tasks| ==> s.tasks[t].pc == Finished
  }

  /** `run` follows the schedule `who`, one step of one tasklet at a time. */
  ghost predicate IsRun(cfg: Config, run: seq<State>, who: seq<nat>) {
    |run| == |who| + 1 && forall i :: 0 <= i < |who| ==> Step(cfg, run[i], who[i]) == Some(run[i + 1])
  }
}
