/** What the operations of an index store promise about records and entry addresses. */
module IndexOps {
  import opened Entries
  import opened BucketSpec
  import opened ChainHeap
  import opened IndexLayout

  /** A bucket after an insert: without room for a node, everything behind the head is lost. */
  function Placed(c: seq<Rec>, r: Rec, room: bool): seq<Rec> {
    if c == [] || room then InsertRec(c, r) else c[..1]
  }

  /** The bucket's chain after an insert; with room `node` is linked behind the head. */
  function PlacedChain(c: seq<Rec>, ps: seq<Addr>, node: Addr, room: bool): seq<Addr> {
    if c == [] || ps == [] then ps else if room then InsertChain(ps, node) else [ps[0]]
  }

  /** The bucket's chain after a delete: the second entry's address goes when the first record does. */
  function RemovedChain(c: seq<Rec>, ps: seq<Addr>, key: Key): seq<Addr> {
    var i := IndexOf(c, key);
    if i >= |c| || |ps| != |c| || |ps| == 1 then ps
    else if i == 0 then [ps[0]] + ps[2..]
    else ps[..i] + ps[i + 1..]
  }

  /** What a run sees of the store: the records and the entry addresses of every bucket. */
  datatype Snap = Snap(recs: seq<seq<Rec>>, chains: seq<seq<Addr>>)

  /** One operation of a caller that only gets-or-inserts, updates and deletes. `room` says whether the allocator
      has a node left and `node` which; `answer` is what get-or-insert returned. */
  datatype Op =
    | GetOrInsert(slot: nat, key: Key, val: nat, meta: Metadata, room: bool, node: Addr, answer: Addr)
    | Update(slot: nat, key: Key, entry: Addr, val: nat, meta: Metadata)
    | Delete(slot: nat, key: Key)

  /** The bucket of a key in the index at a slot. */
  function Home(slot: nat, key: Key, size: nat): nat
    requires size > 0
  {
    BucketAt(slot, size, LocalBucket(key, size))
  }

  /** The address of a key's entry in bucket b, or NULL. */
  function EntryOf(c: seq<Rec>, ps: seq<Addr>, key: Key): Addr {
    if Present(c, key) && |ps| == |c| then ps[IndexOf(c, key)] else NULL
  }

  /** The bucket's records and chain after an operation, as the store's methods promise them. */
  ghost predicate DoesInBucket(c: seq<Rec>, ps: seq<Addr>, op: Op, c': seq<Rec>, ps': seq<Addr>) {
    match op
    case GetOrInsert(_, key, val, meta, room, node, answer) =>
      && answer == EntryOf(c, ps, key) && (room ==> node != NULL)
      && if Present(c, key) then c' == c && ps' == ps
         else c' == Placed(c, Rec(key, val, meta), room) && ps' == PlacedChain(c, ps, node, room)
    case Update(_, key, entry, val, meta) =>
      && Present(c, key) && entry == EntryOf(c, ps, key)
      && c' == c[IndexOf(c, key) := c[IndexOf(c, key)].(val := val, meta := meta)] && ps' == ps
    case Delete(_, key) => c' == RemoveRec(c, key) && ps' == RemovedChain(c, ps, key)
  }

  /** One operation changes the home bucket of its key and no other. */
  ghost predicate Does(size: nat, s: Snap, op: Op, s': Snap)
    requires size > 0
  {
    var b := Home(op.slot, op.key, size);
    && b < |s.recs| == |s.chains| == |s'.recs| == |s'.chains|
    && s'.recs == s.recs[b := s'.recs[b]] && s'.chains == s.chains[b := s'.chains[b]]
    && DoesInBucket(s.recs[b], s.chains[b], op, s'.recs[b], s'.chains[b])
  }
}
