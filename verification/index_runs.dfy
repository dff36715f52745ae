/** Sequential runs on an index: record counts, and put-if-absent with updates seen as a map. */
module IndexRuns {
  import opened Util
  import opened Entries
  import opened BucketSpec
  import opened ChainHeap
  import opened IndexLayout
  import opened IndexOps
  import opened PrimaryIndex

  // --- Counts -------------------------------------------------------------------------------

  lemma RemoveLength(c: seq<Rec>, key: Key)
    ensures |RemoveRec(c, key)| == |c| - if Present(c, key) then 1 else 0
  {
  }

  lemma PlacedLength(c: seq<Rec>, r: Rec, room: bool)
    ensures |Placed(c, r, room)| == if c == [] || room then |c| + 1 else 1
  {
  }

  /** What an insert does to `used` matches what it does to the records exactly when the bucket was empty or a
      node was left: an insert that cuts the bucket still counts one record more. */
  lemma InsertCountsIff(descs: seq<IndexDesc>, recs: seq<seq<Rec>>, size: nat, slot: nat, local: nat, r: Rec,
                        room: bool)
    requires slot < |descs| && local < size && CountsOk(descs, recs, size)
    requires BucketAt(slot, size, local) < |recs| && |recs[BucketAt(slot, size, local)]| < U32_LIMIT
    ensures var b := BucketAt(slot, size, local);
            CountsOk(AddUsed(descs, slot, 1), recs[b := Placed(recs[b], r, room)], size) <==> recs[b] == [] || room
  {
    var b := BucketAt(slot, size, local);
    var c, after := recs[b], Placed(recs[b], r, room);
    PlacedLength(c, r, room);
    if c == [] || room {
      CountsChanged(descs, recs, size, slot, local, after, 1);
    } else {
      CutMiscounts(descs, recs, size, slot, local, after);
    }
  }

  lemma CutMiscounts(descs: seq<IndexDesc>, recs: seq<seq<Rec>>, size: nat, slot: nat, local: nat, after: seq<Rec>)
    requires slot < |descs| && local < size && CountsOk(descs, recs, size) && |after| == 1
    requires BucketAt(slot, size, local) < |recs| && 0 < |recs[BucketAt(slot, size, local)]| < U32_LIMIT
    ensures !CountsOk(AddUsed(descs, slot, 1), recs[BucketAt(slot, size, local) := after], size)
  {
    hide CountRecs;
    var b := BucketAt(slot, size, local);
    var before := CountRecs(recs, BucketAt(slot, size, 0), size);
    CountUpdate(recs, BucketAt(slot, size, 0), size, b, after);
    assert descs[slot].used == Wrap(before);
    WrapApart(before, 1, 1 - |recs[b]|);
  }

  /** Two changes that differ by less than a word leave different words behind. */
  lemma WrapApart(n: nat, d1: int, d2: int)
    requires d2 < d1 < d2 + U32_LIMIT && n + d2 >= 0
    ensures Wrap(Wrap(n) + d1) != Wrap(n + d2)
  {
    assert Wrap(Wrap(n) + d1) == Wrap(n + d1);
  }

  /** What a delete does to `used` matches what it does to the records. */
  lemma DeleteCounts(descs: seq<IndexDesc>, recs: seq<seq<Rec>>, size: nat, slot: nat, local: nat, key: Key)
    requires slot < |descs| && local < size && CountsOk(descs, recs, size)
    requires BucketAt(slot, size, local) < |recs| && Present(recs[BucketAt(slot, size, local)], key)
    ensures var b := BucketAt(slot, size, local);
            CountsOk(AddUsed(descs, slot, -1), recs[b := RemoveRec(recs[b], key)], size)
  {
    var b := BucketAt(slot, size, local);
    RemoveLength(recs[b], key);
    CountsChanged(descs, recs, size, slot, local, RemoveRec(recs[b], key), -1);
  }

  // --- Put-if-absent ------------------------------------------------------------------------

  ghost predicate Unique(c: seq<Rec>) {
    forall i, j :: 0 <= i < j < |c| ==> c[i].key != c[j].key
  }

  ghost predicate AllUnique(recs: seq<seq<Rec>>) {
    forall b :: 0 <= b < |recs| ==> Unique(recs[b])
  }

  /** The bucket as a map from keys to records. */
  ghost function Found(c: seq<Rec>, key: Key): Option<Rec> {
    if Present(c, key) then Some(c[IndexOf(c, key)]) else None
  }

  lemma FoundIs(c: seq<Rec>, i: nat)
    requires Unique(c) && i < |c|
    ensures Found(c, c[i].key) == Some(c[i])
  {
    IndexIs(c, c[i].key, i);
  }

  lemma FoundNone(c: seq<Rec>, key: Key)
    ensures Found(c, key) == None <==> forall i :: 0 <= i < |c| ==> c[i].key != key
  {
  }

  lemma PlacedUnique(c: seq<Rec>, r: Rec, room: bool)
    requires Unique(c) && !Present(c, r.key)
    ensures Unique(Placed(c, r, room))
  {
    var c' := Placed(c, r, room);
    forall i, j | 0 <= i < j < |c'| ensures c'[i].key != c'[j].key {
      assert j >= 2 ==> c'[j] == c[j - 1];
      assert i >= 2 ==> c'[i] == c[i - 1];
    }
  }

  lemma InsertAt(c: seq<Rec>, r: Rec, i: nat)
    requires i < |c| + 1
    ensures |InsertRec(c, r)| == |c| + 1
    ensures InsertRec(c, r)[i] == if c == [] || i == 1 then r else c[if i == 0 then 0 else i - 1]
  {
  }

  lemma PlacedFound(c: seq<Rec>, r: Rec, key: Key)
    requires Unique(c) && !Present(c, r.key)
    ensures Found(InsertRec(c, r), key) == if r.key == key then Some(r) else Found(c, key)
  {
    hide InsertRec, Found, Unique, Present, IndexOf;
    var c' := InsertRec(c, r);
    PlacedUnique(c, r, true);
    if r.key == key {
      InsertAt(c, r, if c == [] then 0 else 1);
      FoundIs(c', if c == [] then 0 else 1);
    } else if i: nat :| i < |c| && c[i].key == key {
      InsertAt(c, r, if i == 0 then 0 else i + 1);
      FoundIs(c', if i == 0 then 0 else i + 1);
      FoundIs(c, i);
    } else {
      InsertAt(c, r, 0);
      forall i | 0 <= i < |c'| ensures c'[i].key != key { InsertAt(c, r, i); }
      FoundNone(c, key);
      FoundNone(c', key);
    }
  }

  lemma UpdatedFound(c: seq<Rec>, i: nat, val: nat, meta: Metadata, key: Key)
    requires Unique(c) && i < |c|
    ensures var c' := c[i := c[i].(val := val, meta := meta)];
            Unique(c') && Found(c', key) == if c[i].key == key then Some(c'[i]) else Found(c, key)
  {
    var c' := c[i := c[i].(val := val, meta := meta)];
    if Present(c, key) {
      FoundIs(c', IndexOf(c, key));
      FoundIs(c, i);
    } else {
      FoundNone(c, key);
      FoundNone(c', key);
    }
  }

  lemma RemovedFound(c: seq<Rec>, k: Key, key: Key)
    requires Unique(c)
    ensures Unique(RemoveRec(c, k)) && Found(RemoveRec(c, k), key) == if k == key then None else Found(c, key)
  {
    var c', at := RemoveRec(c, k), IndexOf(c, k);
    assert forall j :: 0 <= j < |c'| ==> c'[j] == if j < at then c[j] else c[j + 1];
    if k != key && Present(c, key) {
      var i := IndexOf(c, key);
      FoundIs(c', if i < at then i else i - 1);
    } else {
      FoundNone(c, key);
      FoundNone(c', key);
    }
  }

  // --- Runs on a whole store ----------------------------------------------------------------

  ghost predicate SnapOk(s: Snap, size: nat)
    requires size > 0
  {
    && |s.chains| == |s.recs| && Homed(s.recs, size)
    && (forall b :: 0 <= b < |s.recs| ==> |s.chains[b]| == if s.recs[b] == [] then 1 else |s.recs[b]|)
    && (forall b, i :: 0 <= b < |s.chains| && 0 <= i < |s.chains[b]| ==> s.chains[b][i] != NULL)
  }

  ghost predicate IsOpRun(size: nat, states: seq<Snap>, ops: seq<Op>)
    requires size > 0
  {
    |states| == |ops| + 1 && forall i :: 0 <= i < |ops| ==> Does(size, states[i], ops[i], states[i + 1])
  }

  /** Every key occurs once in its index: equal keys within a slot are the same record. */
  ghost predicate KeysOnce(recs: seq<seq<Rec>>, size: nat)
    requires size > 0
  {
    forall b1, i1, b2, i2 ::
      (0 <= b1 < |recs| && 0 <= b2 < |recs| && 0 <= i1 < |recs[b1]| && 0 <= i2 < |recs[b2]|
       && b1 / size == b2 / size && recs[b1][i1].key == recs[b2][i2].key) ==> b1 == b2 && i1 == i2
  }

  /** With every record in its home bucket, unique keys in each bucket are unique keys in each index. */
  lemma UniqueIsOnce(recs: seq<seq<Rec>>, size: nat)
    requires size > 0 && Homed(recs, size)
    ensures AllUnique(recs) <==> KeysOnce(recs, size)
  {
    hide LocalBucket;
    if AllUnique(recs) {
      forall b1, i1, b2, i2 | 0 <= b1 < |recs| && 0 <= b2 < |recs| && 0 <= i1 < |recs[b1]| && 0 <= i2 < |recs[b2]|
        && b1 / size == b2 / size && recs[b1][i1].key == recs[b2][i2].key
        ensures b1 == b2 && i1 == i2
      {
        assert b1 % size == LocalBucket(recs[b1][i1].key, size) && b2 % size == LocalBucket(recs[b2][i2].key, size);
        assert b1 == size * (b1 / size) + b1 % size && b2 == size * (b2 / size) + b2 % size;
        assert Unique(recs[b1]);
      }
    } else {
      var b :| 0 <= b < |recs| && !Unique(recs[b]);
      var i, j :| 0 <= i < j < |recs[b]| && recs[b][i].key == recs[b][j].key;
    }
  }

  lemma HomeBounds(slot: nat, key: Key, size: nat)
    requires size > 0
    ensures Home(slot, key, size) % size == LocalBucket(key, size) && Home(slot, key, size) / size == slot
  {
    BucketAtBounds(slot, size, LocalBucket(key, size), slot + 1);
  }

  // --- What one operation keeps -------------------------------------------------------------

  lemma BucketKeeps(c: seq<Rec>, ps: seq<Addr>, op: Op, c': seq<Rec>, ps': seq<Addr>, size: nat, local: nat)
    requires size > 0 && DoesInBucket(c, ps, op, c', ps') && Unique(c) && LocalBucket(op.key, size) == local
    requires |ps| == (if c == [] then 1 else |c|) && forall i :: 0 <= i < |ps| ==> ps[i] != NULL
    requires forall i :: 0 <= i < |c| ==> LocalBucket(c[i].key, size) == local
    ensures Unique(c') && |ps'| == (if c' == [] then 1 else |c'|) && forall i :: 0 <= i < |ps'| ==> ps'[i] != NULL
    ensures forall i :: 0 <= i < |c'| ==> LocalBucket(c'[i].key, size) == local
  {
    hide LocalBucket, Unique, IndexOf, RemoveRec, Placed, PlacedChain, RemovedChain, Found;
    match op
    case GetOrInsert(_, key, val, meta, room, node, _) =>
      if !Present(c, key) {
        PlacedUnique(c, Rec(key, val, meta), room);
        PlacedShape(c, ps, Rec(key, val, meta), node, room);
      }
    case Update(_, key, _, val, meta) => UpdatedFound(c, IndexOf(c, key), val, meta, key);
    case Delete(_, key) =>
      RemovedFound(c, key, key);
      RemovedShape(c, ps, key);
  }

  lemma PlacedShape(c: seq<Rec>, ps: seq<Addr>, r: Rec, node: Addr, room: bool)
    requires |ps| == (if c == [] then 1 else |c|) && forall i :: 0 <= i < |ps| ==> ps[i] != NULL
    requires room ==> node != NULL
    ensures var c', ps' := Placed(c, r, room), PlacedChain(c, ps, node, room);
            && |ps'| == (if c' == [] then 1 else |c'|) && (forall i :: 0 <= i < |ps'| ==> ps'[i] != NULL)
            && forall i :: 0 <= i < |c'| ==> c'[i] == r || c'[i] in c
  {
  }

  lemma RemovedShape(c: seq<Rec>, ps: seq<Addr>, key: Key)
    requires |ps| == (if c == [] then 1 else |c|) && forall i :: 0 <= i < |ps| ==> ps[i] != NULL
    ensures var c', ps' := RemoveRec(c, key), RemovedChain(c, ps, key);
            && |ps'| == (if c' == [] then 1 else |c'|) && (forall i :: 0 <= i < |ps'| ==> ps'[i] != NULL)
            && forall i :: 0 <= i < |c'| ==> c'[i] in c
  {
  }

  lemma StepKeeps(size: nat, s: Snap, op: Op, s': Snap)
    requires size > 0 && SnapOk(s, size) && AllUnique(s.recs) && Does(size, s, op, s')
    ensures SnapOk(s', size) && AllUnique(s'.recs)
  {
    hide LocalBucket, DoesInBucket, Unique;
    var b := Home(op.slot, op.key, size);
    HomeBounds(op.slot, op.key, size);
    hide Home;
    assert Unique(s.recs[b]);
    BucketKeeps(s.recs[b], s.chains[b], op, s'.recs[b], s'.chains[b], size, b % size);
    HomedUpdate(s.recs, size, b, s'.recs[b]);
  }

  /** In every run of gets-or-inserts, updates and deletes every key stays once in its index, even when the
      allocator runs out of nodes. */
  lemma {:induction false} RunKeepsKeysOnce(size: nat, states: seq<Snap>, ops: seq<Op>, n: nat)
    requires size > 0 && IsOpRun(size, states, ops) && n <= |ops| && SnapOk(states[0], size)
             && KeysOnce(states[0].recs, size)
    ensures SnapOk(states[n], size) && AllUnique(states[n].recs) && KeysOnce(states[n].recs, size)
  {
    hide SnapOk, KeysOnce, Does, AllUnique;
    if n == 0 {
      SnapHomed(states[0], size);
      UniqueIsOnce(states[0].recs, size);
    } else {
      RunKeepsKeysOnce(size, states, ops, n - 1);
      StepKeeps(size, states[n - 1], ops[n - 1], states[n]);
      SnapHomed(states[n], size);
      UniqueIsOnce(states[n].recs, size);
    }
  }

  lemma SnapHomed(s: Snap, size: nat)
    requires size > 0 && SnapOk(s, size)
    ensures Homed(s.recs, size)
  {
  }

  // --- The store as a map -------------------------------------------------------------------

  /** For every slot and key, the value and metadata stored. */
  type Table = map<(nat, Key), (nat, Metadata)>

  ghost function TableRec(m: Table, slot: nat, key: Key): Option<Rec> {
    if (slot, key) in m then Some(Rec(key, m[(slot, key)].0, m[(slot, key)].1)) else None
  }

  /** The store holds exactly the table, for every slot it has. */
  ghost predicate Holds(s: Snap, size: nat, m: Table)
    requires size > 0
  {
    forall slot: nat, key: Key :: Home(slot, key, size) < |s.recs| ==>
      Found(s.recs[Home(slot, key, size)], key) == TableRec(m, slot, key)
  }

  /** What an operation means for the table: put-if-absent, overwrite, remove. */
  function Meaning(m: Table, op: Op): Table {
    match op
    case GetOrInsert(slot, key, val, meta, _, _, _) => if (slot, key) in m then m else m[(slot, key) := (val, meta)]
    case Update(slot, key, _, val, meta) => m[(slot, key) := (val, meta)]
    case Delete(slot, key) => m - {(slot, key)}
  }

  /** A get-or-insert that needs a node finds one. */
  ghost predicate HasRoom(size: nat, s: Snap, op: Op)
    requires size > 0
  {
    op.GetOrInsert? ==> op.room || (Home(op.slot, op.key, size) < |s.recs| && s.recs[Home(op.slot, op.key, size)] == [])
  }

  lemma BucketRefines(c: seq<Rec>, ps: seq<Addr>, op: Op, c': seq<Rec>, ps': seq<Addr>, m: Table, key: Key)
    requires DoesInBucket(c, ps, op, c', ps') && Unique(c) && (op.GetOrInsert? ==> op.room || c == [])
    requires Found(c, key) == TableRec(m, op.slot, key) && Found(c, op.key) == TableRec(m, op.slot, op.key)
    ensures Found(c', key) == TableRec(Meaning(m, op), op.slot, key)
  {
    match op
    case GetOrInsert(_, k, val, meta, _, _, _) =>
      if !Present(c, k) { PlacedFound(c, Rec(k, val, meta), key); }
    case Update(_, k, _, val, meta) => UpdatedFound(c, IndexOf(c, k), val, meta, key);
    case Delete(_, k) => RemovedFound(c, k, key);
  }

  lemma OtherSlot(m: Table, op: Op, slot: nat, key: Key)
    requires slot != op.slot
    ensures TableRec(Meaning(m, op), slot, key) == TableRec(m, slot, key)
  {
  }

  lemma OtherKey(m: Table, op: Op, slot: nat, key: Key)
    requires key != op.key
    ensures TableRec(Meaning(m, op), slot, key) == TableRec(m, slot, key)
  {
  }

  /** One operation does to the store what it means for the table, and a get-or-insert answers NULL exactly when
      the table lacks the key. */
  lemma StepRefines(size: nat, s: Snap, op: Op, s': Snap, m: Table)
    requires size > 0 && SnapOk(s, size) && AllUnique(s.recs) && Does(size, s, op, s') && Holds(s, size, m)
             && HasRoom(size, s, op)
    ensures Holds(s', size, Meaning(m, op))
    ensures op.GetOrInsert? ==> (op.answer == NULL <==> (op.slot, op.key) !in m)
  {
    hide LocalBucket, SnapOk;
    var b := Home(op.slot, op.key, size);
    assert Unique(s.recs[b]) && Found(s.recs[b], op.key) == TableRec(m, op.slot, op.key);
    AnswerMeans(size, s, op, b);
    hide DoesInBucket, Unique, Found, TableRec, Meaning;
    forall slot: nat, key: Key | Home(slot, key, size) < |s'.recs|
      ensures Found(s'.recs[Home(slot, key, size)], key) == TableRec(Meaning(m, op), slot, key)
    {
      HomeBounds(slot, key, size);
      HomeBounds(op.slot, op.key, size);
      hide Home;
      if Home(slot, key, size) == b {
        BucketRefines(s.recs[b], s.chains[b], op, s'.recs[b], s'.chains[b], m, key);
      } else if slot != op.slot {
        OtherSlot(m, op, slot, key);
      } else {
        OtherKey(m, op, slot, key);
      }
    }
  }

  lemma AnswerMeans(size: nat, s: Snap, op: Op, b: nat)
    requires size > 0 && SnapOk(s, size) && b < |s.recs|
    ensures EntryOf(s.recs[b], s.chains[b], op.key) == NULL <==> Found(s.recs[b], op.key) == None
  {
  }

  /** The table after the first n operations. */
  function TableAfter(m: Table, ops: seq<Op>, n: nat): Table
    requires n <= |ops|
  {
    if n == 0 then m else Meaning(TableAfter(m, ops, n - 1), ops[n - 1])
  }

  /** Get-or-insert refines put-if-absent: in every run that finds room for its nodes the store holds the table
      its operations amount to, each answer is NULL exactly when the table lacked the key, and every key stays
      once in its index. */
  lemma {:induction false} RunRefinesTable(size: nat, states: seq<Snap>, ops: seq<Op>, m: Table, n: nat)
    requires size > 0 && IsOpRun(size, states, ops) && n <= |ops|
    requires SnapOk(states[0], size) && KeysOnce(states[0].recs, size) && Holds(states[0], size, m)
    requires forall i :: 0 <= i < |ops| ==> HasRoom(size, states[i], ops[i])
    ensures Holds(states[n], size, TableAfter(m, ops, n))
    ensures forall i :: 0 <= i < n && ops[i].GetOrInsert? ==>
              (ops[i].answer == NULL <==> (ops[i].slot, ops[i].key) !in TableAfter(m, ops, i))
  {
    hide SnapOk, KeysOnce, Does, AllUnique, Holds, HasRoom, Meaning;
    if n > 0 {
      RunRefinesTable(size, states, ops, m, n - 1);
      RunKeepsKeysOnce(size, states, ops, n - 1);
      StepRefines(size, states[n - 1], ops[n - 1], states[n], TableAfter(m, ops, n - 1));
    }
  }

  // --- Addresses ----------------------------------------------------------------------------

  lemma BucketKeepsAddress(c: seq<Rec>, ps: seq<Addr>, op: Op, c': seq<Rec>, ps': seq<Addr>, key: Key)
    requires DoesInBucket(c, ps, op, c', ps') && Unique(c) && !op.Delete? && (op.GetOrInsert? ==> op.room || c == [])
    requires Present(c, key) && |ps| == |c|
    ensures Present(c', key) && EntryOf(c', ps', key) == EntryOf(c, ps, key)
  {
    var i := IndexOf(c, key);
    match op
    case GetOrInsert(_, k, val, meta, _, node, _) =>
      if !Present(c, k) {
        PlacedUnique(c, Rec(k, val, meta), true);
        InsertShifts(c, ps, Rec(k, val, meta), node, i);
        UniqueIndex(c', if i == 0 then 0 else i + 1);
      }
    case Update(_, k, _, val, meta) =>
      UpdatedFound(c, IndexOf(c, k), val, meta, key);
      UniqueIndex(c', i);
    case Delete(_, _) =>
  }

  lemma UniqueIndex(c: seq<Rec>, i: nat)
    requires Unique(c) && i < |c|
    ensures IndexOf(c, c[i].key) == i
  {
    IndexIs(c, c[i].key, i);
  }

  lemma InsertShifts(c: seq<Rec>, ps: seq<Addr>, r: Rec, node: Addr, i: nat)
    requires i < |c| == |ps|
    ensures var j := if i == 0 then 0 else i + 1;
            j < |InsertRec(c, r)| == |InsertChain(ps, node)| && InsertRec(c, r)[j] == c[i]
              && InsertChain(ps, node)[j] == ps[i]
  {
  }

  /** The address of a key's entry in the store, or NULL. */
  ghost function AddressOf(s: Snap, size: nat, slot: nat, key: Key): Addr
    requires size > 0
  {
    var b := Home(slot, key, size);
    if b < |s.recs| && b < |s.chains| then EntryOf(s.recs[b], s.chains[b], key) else NULL
  }

  /** In a run of gets-or-inserts and updates an address once obtained stays that of its key's entry, so a later
      update through it changes the key it was obtained for. */
  lemma {:induction false} AddressesStay(size: nat, states: seq<Snap>, ops: seq<Op>, i: nat, n: nat, slot: nat,
                                         key: Key)
    requires size > 0 && IsOpRun(size, states, ops) && i <= n <= |ops|
    requires SnapOk(states[0], size) && KeysOnce(states[0].recs, size)
    requires forall j :: i <= j < n ==> HasRoom(size, states[j], ops[j]) && !ops[j].Delete?
    requires AddressOf(states[i], size, slot, key) != NULL
    ensures AddressOf(states[n], size, slot, key) == AddressOf(states[i], size, slot, key)
  {
    hide SnapOk, KeysOnce, Does, AllUnique, HasRoom, AddressOf;
    if i < n {
      AddressesStay(size, states, ops, i, n - 1, slot, key);
      RunKeepsKeysOnce(size, states, ops, n - 1);
      AddressStep(size, states[n - 1], ops[n - 1], states[n], slot, key);
    }
  }

  lemma AddressStep(size: nat, s: Snap, op: Op, s': Snap, slot: nat, key: Key)
    requires size > 0 && SnapOk(s, size) && AllUnique(s.recs) && Does(size, s, op, s') && HasRoom(size, s, op)
             && !op.Delete?
    requires AddressOf(s, size, slot, key) != NULL
    ensures AddressOf(s', size, slot, key) == AddressOf(s, size, slot, key)
  {
    hide LocalBucket, SnapOk;
    var b := Home(slot, key, size);
    if b == Home(op.slot, op.key, size) {
      assert Unique(s.recs[b]);
      hide DoesInBucket, Unique, Home;
      BucketKeepsAddress(s.recs[b], s.chains[b], op, s'.recs[b], s'.chains[b], key);
    }
  }

  // --- The store class ----------------------------------------------------------------------

  /** The invariant of the index storage gives what runs start from, and the allocator's next node is real. */
  lemma StoreIsSnap(spaceAddr: Addr, spaceSize: nat, start: Addr, cur: Addr, mem: Memory, descs: seq<IndexDesc>,
                    heads: seq<Addr>, view: View)
    requires SpaceOk(spaceAddr, spaceSize) && StoreOk(spaceAddr, spaceSize, start, cur, mem, descs, heads, view)
    ensures SnapOk(Snap(view.recs, view.chains), BucketsPerIndex(spaceSize))
  {
    hide Homed, Packed, DescsOk, Stored;
    forall b | 0 <= b < |heads|
      ensures |view.chains[b]| == (if view.recs[b] == [] then 1 else |view.recs[b]|)
      ensures forall i :: 0 <= i < |view.chains[b]| ==> view.chains[b][i] != NULL
    {
      BucketLength(mem, heads, view, b);
      assert ChainOk(mem, view.chains[b], view.recs[b]);
    }
  }

  /** A store without records, as after its creates, holds the empty table. */
  lemma NoRecordsIsEmptyTable(size: nat, s: Snap)
    requires size > 0 && forall b :: 0 <= b < |s.recs| ==> s.recs[b] == []
    ensures KeysOnce(s.recs, size) && Holds(s, size, map[])
  {
    hide LocalBucket;
  }
}
