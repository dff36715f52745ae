/** The host's assignment of index ids to sets of DPUs. */
module IndexManager {
  import opened Util
  import opened Words
  import opened Mixing

  const NR_SETS: nat := 4
  const MAX_PER_SET: nat := 16
  const MAX_IDS: nat := 64

  // --- The hash map -------------------------------------------------------------------------

  /** Bucket of a key: the mixed 32-bit word reduced to the number of buckets. */
  function MapBucket(key: int, size: nat): (b: nat)
    requires size > 0
    ensures b < size
  {
    HashInt(Wrap(key)) % size
  }

  /** The bucket in numbers: the one word that UnHash takes to the key as a 32-bit word, reduced. */
  lemma MapBucketInNumbers(key: int, size: nat, h: Word)
    requires size > 0 && UnHash(h) == key % 0x1_0000_0000
    ensures MapBucket(key, size) == h % size
  {
    hide HashInt, UnHash;
    MixingUndone(h);
  }

  lemma MaskedBucket(key: int, size: nat)
    requires IsPow2(size) && size > 0
    ensures BitAnd(HashInt(Wrap(key)), size - 1) == MapBucket(key, size)
  {
    var k: nat :| size == Pow2(k);
    MaskIsMod(HashInt(Wrap(key)), k);
  }

  /** An entry: inline in the bucket array, or linked behind another. */
  class MapEntry {
    var key: int
    var val: nat
    var flag: bool
    var next: MapEntry?

    constructor (key: int, val: nat, flag: bool, next: MapEntry?)
      ensures this.key == key && this.val == val && this.flag == flag && this.next == next
    {
      this.key := key;
      this.val := val;
      this.flag := flag;
      this.next := next;
    }
  }

  /** The fields of an entry. */
  datatype Cell = Cell(key: int, val: nat, flag: bool, next: MapEntry?)

  type Cells = map<MapEntry, Cell>

  ghost function Link(ps: seq<MapEntry>, i: nat): MapEntry? {
    if i + 1 < |ps| then ps[i + 1] else null
  }

  /** The entries of a bucket are distinct and linked in order, only a lone one is unused, and the used ones say
      what the map says. */
  ghost predicate BucketOk(cells: Cells, ps: seq<MapEntry>, b: nat, size: nat, contents: map<int, nat>)
    requires size > 0
  {
    && |ps| > 0 && (forall i :: 0 <= i < |ps| ==> ps[i] in cells)
    && (forall i, j :: 0 <= i < j < |ps| ==> ps[i] != ps[j])
    && (forall i :: 0 <= i < |ps| ==> cells[ps[i]].next == Link(ps, i) && (cells[ps[i]].flag || |ps| == 1))
    && (forall i :: 0 <= i < |ps| && cells[ps[i]].flag ==> Says(cells[ps[i]], b, size, contents))
  }

  ghost predicate Says(c: Cell, b: nat, size: nat, contents: map<int, nat>)
    requires size > 0
  {
    MapBucket(c.key, size) == b && c.key in contents && contents[c.key] == c.val
  }

  ghost predicate HasKey(cells: Cells, ps: seq<MapEntry>, key: int) {
    exists i :: 0 <= i < |ps| && ps[i] in cells && cells[ps[i]].flag && cells[ps[i]].key == key
  }

  ghost predicate MapOk(cells: Cells, heads: seq<MapEntry>, chains: seq<seq<MapEntry>>, owner: map<MapEntry, nat>,
                        contents: map<int, nat>) {
    && |chains| == |heads| > 0
    && (forall b :: 0 <= b < |heads| ==> BucketOk(cells, chains[b], b, |heads|, contents) && chains[b][0] == heads[b])
    && (forall b, i :: 0 <= b < |heads| && 0 <= i < |chains[b]| ==> chains[b][i] in owner && owner[chains[b][i]] == b)
    && (forall k :: k in contents ==> HasKey(cells, chains[MapBucket(k, |heads|)], k))
  }

  lemma BucketKept(cells: Cells, cells': Cells, ps: seq<MapEntry>, b: nat, size: nat, contents: map<int, nat>,
                   key: int, val: nat)
    requires size > 0 && BucketOk(cells, ps, b, size, contents) && key !in contents
    requires forall i :: 0 <= i < |ps| ==> ps[i] in cells' && cells'[ps[i]] == cells[ps[i]]
    ensures BucketOk(cells', ps, b, size, contents[key := val])
    ensures forall k :: HasKey(cells, ps, k) ==> HasKey(cells', ps, k)
  {
    hide MapBucket;
  }

  /** A change to one bucket that adds a new key keeps the map right. */
  lemma MapAdded(cells: Cells, cells': Cells, heads: seq<MapEntry>, chains: seq<seq<MapEntry>>, ps: seq<MapEntry>,
                 owner: map<MapEntry, nat>, owner': map<MapEntry, nat>, contents: map<int, nat>, key: int, val: nat)
    requires MapOk(cells, heads, chains, owner, contents) && key !in contents
    requires forall e :: e in owner ==> e in owner' && owner'[e] == owner[e]
    requires var b := MapBucket(key, |heads|);
             && (forall e :: e in cells && e in owner && owner[e] != b ==> e in cells' && cells'[e] == cells[e])
             && BucketOk(cells', ps, b, |heads|, contents[key := val]) && ps[0] == heads[b]
             && (forall i :: 0 <= i < |ps| ==> ps[i] in owner' && owner'[ps[i]] == b)
             && (forall k :: HasKey(cells, chains[b], k) || k == key ==> HasKey(cells', ps, k))
    ensures MapOk(cells', heads, chains[MapBucket(key, |heads|) := ps], owner', contents[key := val])
  {
    var b := MapBucket(key, |heads|);
    hide MapBucket, HasKey;
    forall o | 0 <= o < |heads| && o != b
      ensures BucketOk(cells', chains[o], o, |heads|, contents[key := val]) && chains[o][0] == heads[o]
      ensures forall k :: HasKey(cells, chains[o], k) ==> HasKey(cells', chains[o], k)
    {
      assert BucketOk(cells, chains[o], o, |heads|, contents);
      BucketKept(cells, cells', chains[o], o, |heads|, contents, key, val);
    }
  }

  /** An unused inline entry takes a new key. */
  lemma FilledBucket(cells: Cells, ps: seq<MapEntry>, b: nat, size: nat, contents: map<int, nat>, key: int, val: nat)
    requires size > 0 && BucketOk(cells, ps, b, size, contents) && !cells[ps[0]].flag && MapBucket(key, size) == b
    ensures var cells' := cells[ps[0] := Cell(key, val, true, null)];
            BucketOk(cells', ps, b, size, contents[key := val])
            && forall k :: HasKey(cells, ps, k) || k == key ==> HasKey(cells', ps, k)
  {
    hide MapBucket;
    assert ps[0] in cells;
  }

  /** The memory after a new entry was linked behind the inline one. */
  ghost function WithBehind(cells: Cells, cur: MapEntry, key: int, val: nat, e: MapEntry): Cells
    requires cur in cells
  {
    cells[cur := cells[cur].(next := e)][e := Cell(key, val, true, cells[cur].next)]
  }

  ghost function Behind(ps: seq<MapEntry>, e: MapEntry): seq<MapEntry>
    requires |ps| > 0
  {
    [ps[0], e] + ps[1..]
  }

  lemma BehindAt(ps: seq<MapEntry>, e: MapEntry, i: nat)
    requires i <= |ps| && |ps| > 0
    ensures |Behind(ps, e)| == |ps| + 1
    ensures Behind(ps, e)[i] == if i == 0 then ps[0] else if i == 1 then e else ps[i - 1]
    ensures Link(Behind(ps, e), i) == if i == 0 then e else Link(ps, i - 1)
  {
  }

  /** A new entry is linked behind the inline one. */
  lemma LinkedBucket(cells: Cells, ps: seq<MapEntry>, b: nat, size: nat, contents: map<int, nat>,
                     key: int, val: nat, e: MapEntry)
    requires size > 0 && BucketOk(cells, ps, b, size, contents) && cells[ps[0]].flag && MapBucket(key, size) == b
    requires e !in cells && key !in contents
    ensures BucketOk(WithBehind(cells, ps[0], key, val, e), Behind(ps, e), b, size, contents[key := val])
  {
    hide MapBucket, Behind, Link;
    var cells', ps' := WithBehind(cells, ps[0], key, val, e), Behind(ps, e);
    BehindAt(ps, e, 0);
    assert cells[ps[0]].next == Link(ps, 0);
    forall i | 0 <= i < |ps'|
      ensures ps'[i] in cells' && cells'[ps'[i]].next == Link(ps', i) && cells'[ps'[i]].flag
      ensures Says(cells'[ps'[i]], b, size, contents[key := val])
    {
      BehindAt(ps, e, i);
    }
    forall i, j | 0 <= i < j < |ps'| ensures ps'[i] != ps'[j] {
      BehindAt(ps, e, i);
      BehindAt(ps, e, j);
    }
  }

  lemma LinkedHasKey(cells: Cells, ps: seq<MapEntry>, key: int, val: nat, e: MapEntry, k: int)
    requires |ps| > 0 && (forall i :: 0 <= i < |ps| ==> ps[i] in cells) && e !in cells
    requires HasKey(cells, ps, k) || k == key
    ensures HasKey(WithBehind(cells, ps[0], key, val, e), Behind(ps, e), k)
  {
    hide Behind, Link;
    var cells', ps' := WithBehind(cells, ps[0], key, val, e), Behind(ps, e);
    if k == key {
      BehindAt(ps, e, 1);
      assert cells'[ps'[1]].key == key;
    } else {
      var i :| 0 <= i < |ps| && ps[i] in cells && cells[ps[i]].flag && cells[ps[i]].key == k;
      BehindAt(ps, e, if i == 0 then 0 else i + 1);
      assert cells'[ps'[if i == 0 then 0 else i + 1]].key == k;
    }
  }

  /** A map of chained buckets. Ghost fields hold each bucket's entries in link order, the bucket of each entry,
      and the map the entries amount to. */
  class HashMap {
    const buckets: seq<MapEntry>
    const sizemask: nat
    var used: nat
    ghost var chains: seq<seq<MapEntry>>
    ghost var owner: map<MapEntry, nat>
    ghost var contents: map<int, nat>

    /** What lies in the entries now. */
    ghost function Now(): Cells
      reads this, owner.Keys
    {
      map e | e in owner :: Cell(e.key, e.val, e.flag, e.next)
    }

    ghost predicate Valid()
      reads this, owner.Keys
    {
      && IsPow2(|buckets|) && sizemask == |buckets| - 1 && used == |contents|
      && MapOk(Now(), buckets, chains, owner, contents)
    }

    /** Unused entries for a whole bucket array. */
    static method NewEntries(size: nat) returns (entries: seq<MapEntry>)
      ensures |entries| == size
      ensures forall j :: 0 <= j < size ==> fresh(entries[j]) && !entries[j].flag && entries[j].next == null
      ensures forall j, k :: 0 <= j < k < size ==> entries[j] != entries[k]
    {
      entries := [];
      for i := 0 to size
        invariant |entries| == i
        invariant forall j :: 0 <= j < i ==> fresh(entries[j]) && !entries[j].flag && entries[j].next == null
        invariant forall j, k :: 0 <= j < k < i ==> entries[j] != entries[k]
      {
        var e := new MapEntry(-1, 0, false, null);
        entries := entries + [e];
      }
    }

    constructor (bucketsSize: nat)
      requires bucketsSize < U32_LIMIT
      ensures Valid() && contents == map[] && fresh(owner.Keys)
    {
      hide MapOk, IsPow2, Alone, Numbered;
      var size := NextPower(bucketsSize);
      assert size > 0 by { PowerPositive(size); }
      var entries := NewEntries(size);
      buckets := entries;
      sizemask := size - 1;
      used := 0;
      chains := Alone(entries);
      owner := Numbered(entries);
      contents := map[];
      new;
      EmptyMap(Now(), buckets, owner);
    }

    static lemma PowerPositive(size: nat)
      requires IsPow2(size)
      ensures size > 0
    {
    }

    /** Each inline entry's bucket. */
    static ghost function Numbered(entries: seq<MapEntry>): (owner: map<MapEntry, nat>)
      requires forall j, k :: 0 <= j < k < |entries| ==> entries[j] != entries[k]
      ensures forall i :: 0 <= i < |entries| ==> entries[i] in owner && owner[entries[i]] == i
      ensures forall e :: e in owner ==> e in entries
    {
      map i | 0 <= i < |entries| :: entries[i] := i
    }

    /** The bucket of a key, masked out of its hash. */
    method BucketId(key: int) returns (b: nat)
      requires IsPow2(|buckets|) && |buckets| > 0 && sizemask == |buckets| - 1
      ensures b == MapBucket(key, |buckets|)
    {
      MaskedBucket(key, |buckets|);
      b := BitAnd(HashInt(Wrap(key)), sizemask);
    }

    /** The entry of a key, found by walking its chain, or null. */
    method Find(key: int) returns (res: MapEntry?)
      requires Valid()
      ensures res == null <==> key !in contents
      ensures res != null ==> res in owner && res.flag && res.key == key && res.val == contents[key]
    {
      hide MapBucket, IsPow2, MapOk, BucketOk, HasKey;
      BucketsThere(Now(), buckets, chains, owner, contents);
      var bucketId := BucketId(key);
      ghost var cells, ps := Now(), chains[bucketId];
      WholeBucket(cells, buckets, chains, owner, contents, bucketId, key);
      var last: MapEntry? := buckets[bucketId];
      ghost var i: nat := 0;
      while last != null && last.flag && last.key != key
        invariant i <= |ps| && last == if i < |ps| then ps[i] else null
        invariant forall j :: 0 <= j < i && j < |ps| ==> Other(cells, ps[j], key)
        decreases |ps| - i
      {
        CellAt(cells, ps, bucketId, |buckets|, contents, i);
        last := last.next;
        i := i + 1;
      }
      res := null;
      if last != null && last.flag && last.key == key {
        CellAt(cells, ps, bucketId, |buckets|, contents, i);
        res := last;
      } else {
        if i < |ps| { CellAt(cells, ps, bucketId, |buckets|, contents, i); }
        NoKey(cells, ps, key);
      }
    }

    /** Adds a key that is not there yet, behind the inline entry; a key that is there is an error. */
    method Insert(key: int, val: nat) returns (st: Status)
      requires Valid()
      modifies this, owner.Keys
      ensures Valid()
      ensures st == Err <==> key in old(contents)
      ensures contents == if st == Ok then old(contents)[key := val] else old(contents)
      ensures used == old(used) + if st == Ok then 1 else 0
    {
      hide MapOk, MapBucket, IsPow2, BucketOk, HasKey;
      BucketsThere(Now(), buckets, chains, owner, contents);
      var en := Find(key);
      if en != null {
        return Err;
      }
      var bucketId := BucketId(key);
      WholeBucket(Now(), buckets, chains, owner, contents, bucketId, key);
      var cur := buckets[bucketId];
      if !cur.flag {
        FillInline(cur, key, val);
      } else {
        LinkBehind(cur, key, val);
      }
      ghost var cells := Now();
      contents := contents[key := val];
      used := used + 1;
      assert Now() == cells;
      return Ok;
    }

    /** The unused inline entry of a bucket takes the key. */
    method FillInline(cur: MapEntry, key: int, val: nat)
      requires |buckets| > 0 && cur == buckets[MapBucket(key, |buckets|)] && !cur.flag && key !in contents
      requires MapOk(Now(), buckets, chains, owner, contents)
      modifies cur
      ensures MapOk(Now(), buckets, chains, owner, contents[key := val])
    {
      ghost var b, cells := MapBucket(key, |buckets|), Now();
      ghost var ps := chains[b];
      WholeBucket(cells, buckets, chains, owner, contents, b, key);
      assert ps[0] in cells by { CellAt(cells, ps, b, |buckets|, contents, 0); }
      hide MapOk, MapBucket, BucketOk, HasKey;
      cur.key := key;
      cur.val := val;
      cur.flag := true;
      cur.next := null;
      assert Now() == cells[cur := Cell(key, val, true, null)];
      FilledBucket(cells, ps, b, |buckets|, contents, key, val);
      MapAdded(cells, Now(), buckets, chains, ps, owner, owner, contents, key, val);
      assert chains == chains[b := ps];
    }

    /** A new entry for the key is linked behind the inline entry of a bucket. */
    method LinkBehind(cur: MapEntry, key: int, val: nat)
      requires |buckets| > 0 && cur == buckets[MapBucket(key, |buckets|)] && cur.flag && key !in contents
      requires MapOk(Now(), buckets, chains, owner, contents)
      modifies this`chains, this`owner, cur
      ensures MapOk(Now(), buckets, chains, owner, contents[key := val])
    {
      hide MapOk, MapBucket, BucketOk, HasKey, WithBehind, Behind;
      BucketsThere(Now(), buckets, chains, owner, contents);
      ghost var b, cells := MapBucket(key, |buckets|), Now();
      WholeBucket(cells, buckets, chains, owner, contents, b, key);
      var newEntry := WriteBehind(cur, key, val, b);
      AddedBehind(cells, buckets, chains, old(owner), contents, key, val, newEntry);
      ghost var linked := Now();
      chains := chains[b := Behind(chains[b], newEntry)];
      assert Now() == linked;
    }

    /** The two writes of a link. */
    method WriteBehind(cur: MapEntry, key: int, val: nat, ghost b: nat) returns (newEntry: MapEntry)
      requires cur in owner
      modifies this`owner, cur`next
      ensures newEntry !in old(owner) && owner == old(owner)[newEntry := b]
      ensures Now() == WithBehind(old(Now()), cur, key, val, newEntry)
    {
      newEntry := new MapEntry(key, val, true, cur.next);
      cur.next := newEntry;
      owner := owner[newEntry := b];
    }
  }

  lemma AddedBehind(cells: Cells, heads: seq<MapEntry>, chains: seq<seq<MapEntry>>, owner: map<MapEntry, nat>,
                    contents: map<int, nat>, key: int, val: nat, e: MapEntry)
    requires MapOk(cells, heads, chains, owner, contents) && key !in contents && e !in owner && e !in cells
    requires var cur := heads[MapBucket(key, |heads|)]; cur in cells && cells[cur].flag
    ensures var b := MapBucket(key, |heads|);
            |chains[b]| > 0
            && MapOk(WithBehind(cells, heads[b], key, val, e), heads, chains[b := Behind(chains[b], e)], owner[e := b],
                     contents[key := val])
  {
    var b := MapBucket(key, |heads|);
    BucketsThere(cells, heads, chains, owner, contents);
    WholeBucket(cells, heads, chains, owner, contents, b, key);
    assert |chains[b]| > 0 && (forall i :: 0 <= i < |chains[b]| ==> chains[b][i] in cells);
    hide MapOk, MapBucket, HasKey, BucketOk;
    var ps := chains[b];
    LinkedBucket(cells, ps, b, |heads|, contents, key, val, e);
    KeysBehind(cells, ps, key, val, e);
    OwnedBehind(ps, owner, e, b);
    BehindAt(ps, e, 0);
    hide BucketOk, Behind, WithBehind;
    MapAdded(cells, WithBehind(cells, ps[0], key, val, e), heads, chains, Behind(ps, e), owner, owner[e := b],
             contents, key, val);
  }

  lemma KeysBehind(cells: Cells, ps: seq<MapEntry>, key: int, val: nat, e: MapEntry)
    requires |ps| > 0 && (forall i :: 0 <= i < |ps| ==> ps[i] in cells) && e !in cells
    ensures forall k :: HasKey(cells, ps, k) || k == key ==>
            HasKey(WithBehind(cells, ps[0], key, val, e), Behind(ps, e), k)
  {
    hide HasKey, Behind, WithBehind;
    forall k | HasKey(cells, ps, k) || k == key
      ensures HasKey(WithBehind(cells, ps[0], key, val, e), Behind(ps, e), k)
    {
      LinkedHasKey(cells, ps, key, val, e, k);
    }
  }

  lemma OwnedBehind(ps: seq<MapEntry>, owner: map<MapEntry, nat>, e: MapEntry, b: nat)
    requires |ps| > 0 && e !in owner && forall i :: 0 <= i < |ps| ==> ps[i] in owner && owner[ps[i]] == b
    ensures forall i :: 0 <= i < |Behind(ps, e)| ==>
            Behind(ps, e)[i] in owner[e := b] && owner[e := b][Behind(ps, e)[i]] == b
  {
    hide Behind;
    BehindAt(ps, e, 0);
    forall i | 0 <= i < |Behind(ps, e)|
      ensures Behind(ps, e)[i] in owner[e := b] && owner[e := b][Behind(ps, e)[i]] == b
    {
      BehindAt(ps, e, i);
    }
  }

  /** Inline entries, each a chain of its own. */
  ghost function Alone(heads: seq<MapEntry>): (chains: seq<seq<MapEntry>>)
    ensures |chains| == |heads| && forall i :: 0 <= i < |heads| ==> chains[i] == [heads[i]]
  {
    seq(|heads|, i requires 0 <= i < |heads| => [heads[i]])
  }

  /** What the walk along a bucket needs to know. */
  lemma WholeBucket(cells: Cells, heads: seq<MapEntry>, chains: seq<seq<MapEntry>>, owner: map<MapEntry, nat>,
                    contents: map<int, nat>, b: nat, key: int)
    requires MapOk(cells, heads, chains, owner, contents) && b < |heads|
    ensures b < |chains| == |heads| && |chains[b]| > 0 && chains[b][0] == heads[b]
    ensures BucketOk(cells, chains[b], b, |heads|, contents)
    ensures forall i :: 0 <= i < |chains[b]| ==> chains[b][i] in owner && owner[chains[b][i]] == b
    ensures b == MapBucket(key, |heads|) && key in contents ==> HasKey(cells, chains[b], key)
  {
    hide MapBucket, HasKey;
  }

  lemma BucketsThere(cells: Cells, heads: seq<MapEntry>, chains: seq<seq<MapEntry>>, owner: map<MapEntry, nat>,
                     contents: map<int, nat>)
    requires MapOk(cells, heads, chains, owner, contents)
    ensures |chains| == |heads| > 0
  {
  }

  lemma CellAt(cells: Cells, ps: seq<MapEntry>, b: nat, size: nat, contents: map<int, nat>, i: nat)
    requires size > 0 && BucketOk(cells, ps, b, size, contents) && i < |ps|
    ensures ps[i] in cells && cells[ps[i]].next == Link(ps, i) && (cells[ps[i]].flag || |ps| == 1)
    ensures cells[ps[i]].flag ==> cells[ps[i]].key in contents && contents[cells[ps[i]].key] == cells[ps[i]].val
  {
    hide MapBucket;
  }

  /** An entry that does not hold the key. */
  ghost predicate Other(cells: Cells, e: MapEntry, key: int) {
    e in cells && !(cells[e].flag && cells[e].key == key)
  }

  lemma NoKey(cells: Cells, ps: seq<MapEntry>, key: int)
    requires forall j :: 0 <= j < |ps| ==> Other(cells, ps[j], key)
    ensures !HasKey(cells, ps, key)
  {
  }

  lemma EmptyMap(cells: Cells, heads: seq<MapEntry>, owner: map<MapEntry, nat>)
    requires |heads| > 0 && cells.Keys == owner.Keys
    requires forall i :: 0 <= i < |heads| ==> heads[i] in owner && owner[heads[i]] == i
    requires forall i :: 0 <= i < |heads| ==> !cells[heads[i]].flag && cells[heads[i]].next == null
    ensures MapOk(cells, heads, Alone(heads), owner, map[])
  {
    hide MapBucket;
  }

  // --- The manager --------------------------------------------------------------------------

  /** The ids mapped to one set. */
  ghost function IdsOn(ids: map<int, nat>, set_: nat): set<int> {
    set id | id in ids && ids[id] == set_
  }

  /** The first set with room for another index. */
  function FirstFit(sets: seq<nat>): (r: Option<nat>)
    ensures r.Some? ==> r.value < |sets| && sets[r.value] < MAX_PER_SET && forall j :: 0 <= j < r.value ==>
            sets[j] >= MAX_PER_SET
    ensures r.None? ==> forall j :: 0 <= j < |sets| ==> sets[j] >= MAX_PER_SET
  {
    if sets == [] then None else if sets[0] < MAX_PER_SET then Some(0) else
      assert forall j :: 1 <= j < |sets| ==> sets[j] == sets[1..][j - 1];
      match FirstFit(sets[1..]) case None => None case Some(j) => Some(j + 1)
  }

  /** Books an index on the first set with room. */
  method DpuSetApply(sets: array<nat>) returns (chosen: Option<nat>)
    modifies sets
    ensures chosen == FirstFit(old(sets[..]))
    ensures sets[..] == if chosen.Some? then old(sets[..])[chosen.value := old(sets[..])[chosen.value] + 1]
            else old(sets[..])
  {
    ghost var before := sets[..];
    for i := 0 to sets.Length
      invariant sets[..] == before && forall j :: 0 <= j < i ==> sets[j] >= MAX_PER_SET
    {
      if sets[i] < MAX_PER_SET {
        assert FirstFit(before) == Some(i);
        sets[i] := sets[i] + 1;
        return Some(i);
      }
    }
    return None;
  }

  /** The manager's state: indexes booked per set, ids mapped to sets, and their number. */
  datatype Managed = Managed(sets: seq<nat>, ids: map<int, nat>, count: nat)

  /** What a create does: books a set first, and maps the id only if the limit is not reached and the id is new. */
  function CreateNext(m: Managed, id: int): (r: (Managed, bool)) {
    match FirstFit(m.sets)
    case None => (m, false)
    case Some(j) =>
      var booked := m.(sets := m.sets[j := m.sets[j] + 1]);
      if m.count < MAX_IDS && id !in m.ids then (booked.(ids := m.ids[id := j], count := m.count + 1), true)
        else (booked, false)
  }

  /** The slots after a booking. */
  function BookOne(sets: seq<nat>, chosen: Option<nat>): seq<nat> {
    if chosen.Some? && chosen.value < |sets| then sets[chosen.value := sets[chosen.value] + 1] else sets
  }

  /** A create is a booking and, if it found a slot, a mapping. */
  lemma CreateParts(m: Managed, id: int)
    ensures var chosen := FirstFit(m.sets);
            var booked := m.(sets := BookOne(m.sets, chosen));
            var ok := chosen.Some? && m.count < MAX_IDS && id !in m.ids;
            CreateNext(m, id) == (if ok then booked.(ids := m.ids[id := chosen.value], count := m.count + 1)
                                  else booked, ok)
  {
  }

  ghost predicate ManagedOk(m: Managed) {
    && |m.sets| == NR_SETS && m.count == |m.ids| <= MAX_IDS
    && (forall id :: id in m.ids ==> m.ids[id] < NR_SETS)
    && (forall j :: 0 <= j < NR_SETS ==> |IdsOn(m.ids, j)| <= m.sets[j] <= MAX_PER_SET)
  }

  lemma MappedOne(ids: map<int, nat>, id: int, j: nat, k: nat)
    requires id !in ids
    ensures IdsOn(ids[id := j], k) == if j == k then IdsOn(ids, k) + {id} else IdsOn(ids, k)
  {
  }

  /** Every create keeps the manager's counts right and no id ever changes its set. */
  lemma CreateKeepsOk(m: Managed, id: int)
    requires ManagedOk(m)
    ensures ManagedOk(CreateNext(m, id).0)
    ensures forall i :: i in m.ids ==> i in CreateNext(m, id).0.ids && CreateNext(m, id).0.ids[i] == m.ids[i]
    ensures CreateNext(m, id).1 ==> id !in m.ids && CreateNext(m, id).0.ids.Keys == m.ids.Keys + {id}
    ensures !CreateNext(m, id).1 ==> CreateNext(m, id).0.ids == m.ids
  {
    var m' := CreateNext(m, id).0;
    if CreateNext(m, id).1 {
      var j := FirstFit(m.sets).value;
      forall k | 0 <= k < NR_SETS ensures |IdsOn(m'.ids, k)| <= m'.sets[k] { MappedOne(m.ids, id, j, k); }
      assert m'.ids.Keys == m.ids.Keys + {id};
    }
  }

  lemma CreateStaysOk(m: Managed, id: int)
    requires ManagedOk(m)
    ensures ManagedOk(CreateNext(m, id).0)
  {
    CreateKeepsOk(m, id);
  }

  /** Ids mapped are at most the indexes booked. */
  lemma MappedAtMostBooked(m: Managed)
    requires ManagedOk(m)
    ensures m.count <= m.sets[0] + m.sets[1] + m.sets[2] + m.sets[3]
  {
    var a, b, c, d := IdsOn(m.ids, 0), IdsOn(m.ids, 1), IdsOn(m.ids, 2), IdsOn(m.ids, 3);
    forall id | id in m.ids ensures id in a + b + c + d {
      assert m.ids[id] == 0 || m.ids[id] == 1 || m.ids[id] == 2 || m.ids[id] == 3;
    }
    assert m.ids.Keys == a + b + c + d;
    UnionSize(a, b);
    UnionSize(a + b, c);
    UnionSize(a + b + c, d);
  }

  lemma UnionSize<T>(a: set<T>, b: set<T>)
    ensures |a + b| <= |a| + |b|
  {
    assert a + b == a + (b - a);
    SubsetSize(b - a, b);
  }

  lemma {:induction false} SubsetSize<T>(a: set<T>, b: set<T>)
    requires a <= b
    ensures |a| <= |b|
  {
    if x :| x in a {
      SubsetSize(a - {x}, b - {x});
    }
  }

  /** A create succeeds exactly when some set has room and the id is new; the global limit never decides. */
  lemma CreateSucceedsIff(m: Managed, id: int)
    requires ManagedOk(m)
    ensures CreateNext(m, id).1 <==> id !in m.ids && exists j :: 0 <= j < NR_SETS && m.sets[j] < MAX_PER_SET
  {
    MappedAtMostBooked(m);
  }

  function Booked(sets: seq<nat>): nat {
    if sets == [] then 0 else sets[0] + Booked(sets[1..])
  }

  lemma {:induction false} BookedUpdate(sets: seq<nat>, j: nat, n: nat)
    requires j < |sets|
    ensures Booked(sets[j := n]) == Booked(sets) - sets[j] + n
  {
    if j > 0 {
      assert sets[j := n][1..] == sets[1..][j - 1 := n];
      BookedUpdate(sets[1..], j - 1, n);
    } else {
      assert sets[j := n][1..] == sets[1..];
    }
  }

  function CreateAll(m: Managed, ids: seq<int>): Managed {
    if ids == [] then m else CreateNext(CreateAll(m, ids[..|ids| - 1]), ids[|ids| - 1]).0
  }

  lemma {:induction false} BookedFull(sets: seq<nat>)
    requires forall j :: 0 <= j < |sets| ==> sets[j] == MAX_PER_SET
    ensures Booked(sets) == MAX_PER_SET * |sets|
  {
    if sets != [] { BookedFull(sets[1..]); }
  }

  lemma {:induction false} BookedNotFull(sets: seq<nat>, j: nat)
    requires j < |sets| && sets[j] < MAX_PER_SET && forall i :: 0 <= i < |sets| ==> sets[i] <= MAX_PER_SET
    ensures Booked(sets) < MAX_PER_SET * |sets|
  {
    if j > 0 {
      BookedNotFull(sets[1..], j - 1);
    } else {
      BookedAtMost(sets[1..]);
    }
  }

  lemma {:induction false} BookedAtMost(sets: seq<nat>)
    requires forall i :: 0 <= i < |sets| ==> sets[i] <= MAX_PER_SET
    ensures Booked(sets) <= MAX_PER_SET * |sets|
  {
    if sets != [] { BookedAtMost(sets[1..]); }
  }

  const NO_INDEXES: Managed := Managed([0, 0, 0, 0], map[], 0)

  lemma NothingBooked()
    ensures ManagedOk(NO_INDEXES) && Booked(NO_INDEXES.sets) == 0
  {
    assert forall j :: IdsOn(NO_INDEXES.ids, j) == {};
    assert [0, 0, 0, 0][1..] == [0, 0, 0] && [0, 0, 0][1..] == [0, 0];
  }

  /** A create books one slot as long as there is one, whether or not it succeeds. */
  lemma CreateBooks(m: Managed, id: int)
    requires ManagedOk(m)
    ensures Booked(CreateNext(m, id).0.sets) == if Booked(m.sets) < MAX_IDS then Booked(m.sets) + 1 else MAX_IDS
  {
    hide IdsOn, Booked;
    match FirstFit(m.sets)
    case None => BookedFull(m.sets);
    case Some(j) =>
      BookedNotFull(m.sets, j);
      BookedUpdate(m.sets, j, m.sets[j] + 1);
  }

  /** After any run of creates: the counts are right, and every create has booked a slot whether or not it
      succeeded, until all 64 are gone. */
  lemma {:induction false} CreateRun(ids: seq<int>)
    ensures ManagedOk(CreateAll(NO_INDEXES, ids))
    ensures Booked(CreateAll(NO_INDEXES, ids).sets) == if |ids| <= MAX_IDS then |ids| else MAX_IDS
  {
    hide ManagedOk, CreateNext, Booked;
    if ids == [] {
      NothingBooked();
    } else {
      var m, id := CreateAll(NO_INDEXES, ids[..|ids| - 1]), ids[|ids| - 1];
      CreateRun(ids[..|ids| - 1]);
      CreateKeepsOk(m, id);
      CreateBooks(m, id);
    }
  }

  /** How many of n creates set j has booked: the sets fill up one after the other, 16 each. */
  function Share(n: nat, j: nat): nat {
    if n <= 16 * j then 0 else if n <= 16 * j + 16 then n - 16 * j else 16
  }

  /** The sets in numbers: after n creates, of whatever ids, the four sets have booked 16 each in order. */
  lemma {:induction false} SetsFillInOrder(ids: seq<int>)
    ensures CreateAll(NO_INDEXES, ids).sets == [Share(|ids|, 0), Share(|ids|, 1), Share(|ids|, 2), Share(|ids|, 3)]
  {
    if ids != [] {
      var n := |ids| - 1;
      SetsFillInOrder(ids[..n]);
      NextInOrder(CreateAll(NO_INDEXES, ids[..n]), n, ids[n]);
    }
  }

  lemma NextInOrder(m: Managed, n: nat, id: int)
    requires m.sets == [Share(n, 0), Share(n, 1), Share(n, 2), Share(n, 3)]
    ensures CreateNext(m, id).0.sets == [Share(n + 1, 0), Share(n + 1, 1), Share(n + 1, 2), Share(n + 1, 3)]
  {
    var f := FirstFit(m.sets);
    if n < 64 {
      assert m.sets[n / 16] < MAX_PER_SET;
      assert f.value == n / 16;
    } else {
      assert m.sets == [16, 16, 16, 16];
    }
  }

  lemma RoomIffNotAllBooked(m: Managed)
    requires ManagedOk(m)
    ensures (exists j :: 0 <= j < NR_SETS && m.sets[j] < MAX_PER_SET) <==> Booked(m.sets) < MAX_IDS
  {
    hide IdsOn, Booked;
    if j :| 0 <= j < NR_SETS && m.sets[j] < MAX_PER_SET {
      BookedNotFull(m.sets, j);
    } else {
      BookedFull(m.sets);
    }
  }

  /** The ids among the first 64 creates. */
  ghost function EarlyIds(ids: seq<int>): set<int> {
    set k | 0 <= k < |ids| && k < MAX_IDS :: ids[k]
  }

  lemma EarlyIdsGrow(ids: seq<int>)
    requires ids != []
    ensures var early := EarlyIds(ids[..|ids| - 1]);
            EarlyIds(ids) == if |ids| <= MAX_IDS then early + {ids[|ids| - 1]} else early
  {
    var early := EarlyIds(ids[..|ids| - 1]);
    forall k | 0 <= k < |ids| - 1 && k < MAX_IDS ensures ids[k] in early { assert ids[..|ids| - 1][k] in early; }
    if |ids| <= MAX_IDS {
      assert ids[|ids| - 1] in EarlyIds(ids);
    }
  }

  lemma NoEarlyIds()
    ensures EarlyIds([]) == {}
  {
  }

  /** After any run of creates the ids mapped are those that were among the first 64 creates: each create uses up
      a slot, and a later one never succeeds. */
  lemma {:induction false} MappedAreEarly(ids: seq<int>)
    ensures CreateAll(NO_INDEXES, ids).ids.Keys == EarlyIds(ids)
  {
    hide ManagedOk, CreateNext, Booked, EarlyIds;
    if ids == [] {
      NoEarlyIds();
    } else {
      var m, id := CreateAll(NO_INDEXES, ids[..|ids| - 1]), ids[|ids| - 1];
      MappedAreEarly(ids[..|ids| - 1]);
      CreateRun(ids[..|ids| - 1]);
      CreateSucceedsIff(m, id);
      RoomIffNotAllBooked(m);
      CreateKeepsOk(m, id);
      EarlyIdsGrow(ids);
    }
  }

  /** Once 64 creates were made, of whatever ids, no further one succeeds; when all were of one id, that id alone
      is mapped. */
  lemma RepeatedCreatesExhaust(ids: seq<int>, id: int)
    requires |ids| >= MAX_IDS
    ensures !CreateNext(CreateAll(NO_INDEXES, ids), id).1
    ensures (forall k :: 0 <= k < |ids| ==> ids[k] == ids[0]) ==> CreateAll(NO_INDEXES, ids).ids.Keys == {ids[0]}
  {
    hide CreateNext, CreateAll, Booked, IdsOn;
    CreateRun(ids);
    CreateSucceedsIff(CreateAll(NO_INDEXES, ids), id);
    RoomIffNotAllBooked(CreateAll(NO_INDEXES, ids));
    MappedAreEarly(ids);
    assert ids[0] in EarlyIds(ids);
  }

  class Manager {
    const sets: array<nat>
    const dpuSetMap: HashMap
    var globalNrPreLoadIndex: nat

    ghost function View(): Managed
      reads this, sets, dpuSetMap
    {
      Managed(sets[..], dpuSetMap.contents, globalNrPreLoadIndex)
    }

    ghost predicate Valid()
      reads this, sets, dpuSetMap, dpuSetMap.owner.Keys
    {
      dpuSetMap.Valid() && ManagedOk(View())
    }

    constructor ()
      ensures Valid() && View() == NO_INDEXES && fresh(sets) && fresh(dpuSetMap)
      ensures fresh(dpuSetMap.owner.Keys)
    {
      sets := new nat[NR_SETS](_ => 0);
      dpuSetMap := new HashMap(128);
      globalNrPreLoadIndex := 0;
      new;
      assert sets[..] == [0, 0, 0, 0];
      assert forall j :: IdsOn(map[], j) == {};
    }

    /** Registers an id; the id's set, the counts and the map change together or not at all, except that a set
        may be booked in vain. */
    method CreateIndex(id: int) returns (ok: bool)
      requires Valid()
      modifies this, sets, dpuSetMap, dpuSetMap.owner.Keys
      ensures Valid()
      ensures View() == CreateNext(old(View()), id).0 && ok == CreateNext(old(View()), id).1
    {
      hide View, ManagedOk, FirstFit, BookOne, CreateNext, HashMap.Valid;
      CreateStaysOk(View(), id);
      CreateParts(View(), id);
      ok := false;
      var chosen := Book();
      if chosen.Some? {
        ok := MapId(id, chosen.value);
      }
    }

    /** Books a slot and leaves the map alone. */
    method Book() returns (chosen: Option<nat>)
      requires dpuSetMap.Valid()
      modifies sets
      ensures dpuSetMap.Valid() && chosen == FirstFit(old(View()).sets)
      ensures View() == old(View()).(sets := BookOne(old(View()).sets, chosen))
    {
      hide HashMap.Valid;
      chosen := DpuSetApply(sets);
    }

    /** The part of a create that follows a successful booking. */
    method MapId(id: int, chosen: nat) returns (ok: bool)
      requires dpuSetMap.Valid()
      modifies this`globalNrPreLoadIndex, dpuSetMap, dpuSetMap.owner.Keys
      ensures dpuSetMap.Valid()
      ensures ok <==> old(View()).count < MAX_IDS && id !in old(View()).ids
      ensures View() == if ok then old(View()).(ids := old(View()).ids[id := chosen], count := old(View()).count + 1)
              else old(View())
    {
      hide HashMap.Valid;
      ok := false;
      if globalNrPreLoadIndex < MAX_IDS {
        var st := dpuSetMap.Insert(id, chosen);
        if st == Ok {
          globalNrPreLoadIndex := globalNrPreLoadIndex + 1;
          ok := true;
        }
      }
    }

    /** The three counters of mapped ids agree. */
    lemma CountersAgree()
      requires Valid()
      ensures dpuSetMap.used == globalNrPreLoadIndex == |View().ids| <= MAX_IDS
    {
    }

    /** The set an id is mapped to. */
    method GetDpuSet(id: int) returns (dpuSet: Option<nat>)
      requires Valid()
      ensures dpuSet == if id in View().ids then Some(View().ids[id]) else None
      ensures dpuSet.Some? ==> dpuSet.value < NR_SETS
    {
      var en := dpuSetMap.Find(id);
      return if en == null then None else Some(en.val);
    }
  }

  /** After any run of creates a set's DPUs have been given at most half as many indexes as they have slots. */
  lemma SlotsSuffice(ids: seq<int>, j: nat)
    requires j < NR_SETS
    ensures 2 * |IdsOn(CreateAll(NO_INDEXES, ids).ids, j)| <= 32
  {
    CreateRun(ids);
  }

  /** In any run of creates an id that is mapped once keeps its set for ever. */
  lemma {:induction false} IdsStay(ids: seq<int>, n: nat, id: int)
    requires n <= |ids| && id in CreateAll(NO_INDEXES, ids[..n]).ids
    ensures id in CreateAll(NO_INDEXES, ids).ids
    ensures CreateAll(NO_INDEXES, ids).ids[id] == CreateAll(NO_INDEXES, ids[..n]).ids[id]
  {
    hide ManagedOk, CreateNext;
    if n == |ids| {
      assert ids[..n] == ids;
    } else {
      var k := |ids| - 1;
      assert ids[..k][..n] == ids[..n];
      IdsStay(ids[..k], n, id);
      CreateRun(ids[..k]);
      CreateKeepsOk(CreateAll(NO_INDEXES, ids[..k]), ids[k]);
    }
  }
}
