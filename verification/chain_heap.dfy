/** Chained buckets in flat memory: when a memory holds well-formed chains, and what
    each write the index makes does to them. */
module ChainHeap {
  import opened Entries
  import opened BucketSpec

  type Memory = map<Addr, Entry>

  /** The addresses and records of every bucket, and the bucket each used address belongs to. */
  datatype View = View(chains: seq<seq<Addr>>, recs: seq<seq<Rec>>, owner: map<Addr, nat>)

  function LinkAt(ps: seq<Addr>, i: nat): Addr {
    if i + 1 < |ps| then ps[i + 1] else NULL
  }

  /** `ps` is the NULL-terminated chain starting at ps[0], and it stores exactly `c`. */
  ghost predicate ChainOk(mem: Memory, ps: seq<Addr>, c: seq<Rec>) {
    && |ps| > 0
    && (forall i :: 0 <= i < |ps| ==> ps[i] != NULL && ps[i] in mem)
    && (forall i :: 0 <= i < |ps| ==> mem[ps[i]].next == LinkAt(ps, i))
    && (forall i, j :: 0 <= i < j < |ps| ==> ps[i] != ps[j])
    && if mem[ps[0]].keyLen == 0 then |ps| == 1 && c == []
       else |c| == |ps| && forall i :: 0 <= i < |ps| ==> Stored(mem[ps[i]], c[i])
  }

  /** Every bucket head starts a well-formed chain and no address is used by two buckets. */
  ghost predicate HeapOk(mem: Memory, heads: seq<Addr>, v: View) {
    && |v.chains| == |v.recs| == |heads|
    && (forall b :: 0 <= b < |heads| ==> ChainOk(mem, v.chains[b], v.recs[b]) && v.chains[b][0] == heads[b])
    && (forall b, i :: 0 <= b < |heads| && 0 <= i < |v.chains[b]| ==>
          v.chains[b][i] in v.owner && v.owner[v.chains[b][i]] == b)
    && v.owner.Keys <= mem.Keys && NULL !in v.owner
  }

  /** Every stored key is in the bucket its hash selects; indexes of `size` buckets follow one another. */
  ghost predicate Homed(recs: seq<seq<Rec>>, size: nat)
    requires size > 0
  {
    forall b, i :: 0 <= b < |recs| && 0 <= i < |recs[b]| ==> LocalBucket(recs[b][i].key, size) == b % size
  }

  lemma HeapSizes(mem: Memory, heads: seq<Addr>, v: View)
    requires HeapOk(mem, heads, v)
    ensures |v.chains| == |v.recs| == |heads|
  {
  }

  lemma HomedUpdate(recs: seq<seq<Rec>>, size: nat, b: nat, c: seq<Rec>)
    requires size > 0 && Homed(recs, size) && b < |recs|
    requires forall i :: 0 <= i < |c| ==> LocalBucket(c[i].key, size) == b % size
    ensures Homed(recs[b := c], size)
  {
  }

  /** A chain is unaffected by writes outside it. */
  lemma ChainFrame(mem: Memory, mem': Memory, ps: seq<Addr>, c: seq<Rec>)
    requires ChainOk(mem, ps, c)
    requires forall i :: 0 <= i < |ps| ==> ps[i] in mem' && mem'[ps[i]] == mem[ps[i]]
    ensures ChainOk(mem', ps, c)
  {
  }

  /** An empty head is a chain without records. */
  lemma LoneHead(mem: Memory, a: Addr)
    requires a != NULL && a in mem && mem[a].keyLen == 0 && mem[a].next == NULL
    ensures ChainOk(mem, [a], [])
  {
  }

  /** Replacing one bucket's chain keeps the heap well formed when the writes stay inside that bucket. */
  lemma HeapUpdate(mem: Memory, mem': Memory, heads: seq<Addr>, v: View, v': View, b: nat)
    requires HeapOk(mem, heads, v) && b < |heads|
    requires |v'.chains| == |v'.recs| == |heads|
             && v' == View(v.chains[b := v'.chains[b]], v.recs[b := v'.recs[b]], v'.owner)
    requires v.owner.Keys <= v'.owner.Keys <= mem'.Keys && NULL !in v'.owner
    requires forall a :: a in v.owner ==> v'.owner[a] == v.owner[a] && (v.owner[a] != b ==> mem'[a] == mem[a])
    requires ChainOk(mem', v'.chains[b], v'.recs[b]) && v'.chains[b][0] == heads[b]
    requires forall i :: 0 <= i < |v'.chains[b]| ==> v'.chains[b][i] in v'.owner && v'.owner[v'.chains[b][i]] == b
    ensures HeapOk(mem', heads, v')
  {
    forall o | 0 <= o < |heads|
      ensures ChainOk(mem', v'.chains[o], v'.recs[o]) && v'.chains[o][0] == heads[o]
      ensures forall i :: 0 <= i < |v'.chains[o]| ==> v'.chains[o][i] in v'.owner && v'.owner[v'.chains[o][i]] == o
    {
      if o != b {
        assert v'.chains[o] == v.chains[o] && v'.recs[o] == v.recs[o];
        ChainFrame(mem, mem', v.chains[o], v.recs[o]);
      }
    }
  }

  // --- The five writes -----------------------------------------------------------------

  /** An empty bucket is one head with length 0; a non-empty one has as many nodes as records. */
  lemma BucketLength(mem: Memory, heads: seq<Addr>, v: View, b: nat)
    requires HeapOk(mem, heads, v) && b < |heads|
    ensures |v.chains| == |v.recs| == |heads| && heads[b] in mem && heads[b] != NULL
    ensures mem[heads[b]].keyLen == 0 <==> v.recs[b] == []
    ensures v.recs[b] == [] ==> v.chains[b] == [heads[b]] && mem[heads[b]].next == NULL
    ensures v.recs[b] != [] ==> |v.chains[b]| == |v.recs[b]|
  {
    assert ChainOk(mem, v.chains[b], v.recs[b]);
  }

  /** No entry is reached twice, neither from one head nor from two. */
  lemma ReachedOnce(mem: Memory, heads: seq<Addr>, v: View, b1: nat, i1: nat, b2: nat, i2: nat)
    requires HeapOk(mem, heads, v) && b1 < |heads| && b2 < |heads|
    requires i1 < |v.chains[b1]| && i2 < |v.chains[b2]| && v.chains[b1][i1] == v.chains[b2][i2]
    ensures b1 == b2 && i1 == i2
  {
    assert v.owner[v.chains[b1][i1]] == b1 && v.owner[v.chains[b2][i2]] == b2;
    assert ChainOk(mem, v.chains[b1], v.recs[b1]);
  }

  /** Every entry behind a head holds a key; only a head can be empty, and then it has no successor. */
  lemma OnlyHeadsEmpty(mem: Memory, heads: seq<Addr>, v: View, b: nat, i: nat)
    requires HeapOk(mem, heads, v) && b < |heads| && i < |v.chains[b]|
    ensures v.chains[b][i] in mem
    ensures mem[v.chains[b][i]].keyLen == 0 ==> i == 0 && mem[v.chains[b][i]].next == NULL
  {
    assert ChainOk(mem, v.chains[b], v.recs[b]);
    if v.recs[b] != [] { assert Stored(mem[v.chains[b][i]], v.recs[b][i]); }
  }

  /** A node matches a key exactly when its record has the key; its link leads to the next node or is NULL. */
  lemma NodeMeaning(mem: Memory, ps: seq<Addr>, c: seq<Rec>, i: nat, key: Key)
    requires ChainOk(mem, ps, c) && i < |ps|
    ensures ps[i] in mem && ps[i] != NULL && (Matches(mem[ps[i]], key) <==> i < |c| && c[i].key == key)
    ensures mem[ps[i]].next == NULL <==> i + 1 == |ps|
    ensures i + 1 < |ps| ==> mem[ps[i]].next == ps[i + 1] && ps[i + 1] in mem
    ensures |c| <= |ps| && (i > 0 || c != [] ==> |c| == |ps|)
  {
    assert mem[ps[i]].next == LinkAt(ps, i);
    if c != [] { assert Stored(mem[ps[i]], c[i]); }
  }

  function InsertChain(ps: seq<Addr>, a: Addr): seq<Addr>
    requires |ps| > 0
  {
    [ps[0], a] + ps[1..]
  }

  /** Filling the empty inline head. */
  lemma FillHead(mem: Memory, heads: seq<Addr>, v: View, b: nat, e: Entry, r: Rec)
    requires HeapOk(mem, heads, v) && b < |heads| && v.recs[b] == []
    requires Stored(e, r) && e.next == NULL
    ensures HeapOk(mem[heads[b] := e], heads, v.(recs := v.recs[b := InsertRec(v.recs[b], r)]))
  {
    BucketLength(mem, heads, v, b);
    var v' := v.(recs := v.recs[b := [r]]);
    assert v.chains == v.chains[b := v.chains[b]];
    HeapUpdate(mem, mem[heads[b] := e], heads, v, v', b);
  }

  /** The two writes of an insert behind the head: link the head to the new node, then fill the node. */
  function LinkSecond(mem: Memory, head: Addr, a: Addr, node: Entry): Memory
    requires head in mem
  {
    mem[head := mem[head].(next := a)][a := node]
  }

  lemma InsertSecond(mem: Memory, heads: seq<Addr>, v: View, b: nat, a: Addr, node: Entry, r: Rec)
    requires HeapOk(mem, heads, v) && b < |heads| && v.recs[b] != []
    requires a !in mem && a != NULL
    requires heads[b] in mem && Stored(node, r) && node.next == mem[heads[b]].next
    ensures HeapOk(LinkSecond(mem, heads[b], a, node), heads,
                   View(v.chains[b := InsertChain(v.chains[b], a)], v.recs[b := InsertRec(v.recs[b], r)],
                        v.owner[a := b]))
  {
    hide ChainOk, Stored, InsertRec, InsertChain;
    BucketLength(mem, heads, v, b);
    ChainAt(mem, heads, v, b);
    var ps, c := v.chains[b], v.recs[b];
    var mem' := LinkSecond(mem, heads[b], a, node);
    LinkSecondChain(mem, ps, c, a, node, r);
    var v' := View(v.chains[b := InsertChain(ps, a)], v.recs[b := InsertRec(c, r)], v.owner[a := b]);
    InsertedOwners(ps, a, v.owner, b);
    HeapUpdate(mem, mem', heads, v, v', b);
  }

  lemma InsertedOwners(ps: seq<Addr>, a: Addr, owner: map<Addr, nat>, b: nat)
    requires |ps| > 0 && a !in owner && forall i :: 0 <= i < |ps| ==> ps[i] in owner && owner[ps[i]] == b
    ensures |InsertChain(ps, a)| > 0 && InsertChain(ps, a)[0] == ps[0]
    ensures forall i :: 0 <= i < |InsertChain(ps, a)| ==>
              InsertChain(ps, a)[i] in owner[a := b] && owner[a := b][InsertChain(ps, a)[i]] == b
  {
    var ps' := InsertChain(ps, a);
    assert forall i :: 2 <= i < |ps'| ==> ps'[i] == ps[i - 1];
  }

  lemma LinkSecondChain(mem: Memory, ps: seq<Addr>, c: seq<Rec>, a: Addr, node: Entry, r: Rec)
    requires ChainOk(mem, ps, c) && c != []
    requires a !in mem && a != NULL && Stored(node, r) && node.next == mem[ps[0]].next
    ensures ChainOk(LinkSecond(mem, ps[0], a, node), InsertChain(ps, a), InsertRec(c, r))
  {
    var mem' := LinkSecond(mem, ps[0], a, node);
    var ps', c' := InsertChain(ps, a), InsertRec(c, r);
    assert |c| == |ps| && ps'[0] == ps[0] && ps'[1] == a && c'[0] == c[0] && c'[1] == r;
    forall i | 2 <= i < |ps'|
      ensures ps'[i] == ps[i - 1] && c'[i] == c[i - 1] && mem'[ps'[i]] == mem[ps[i - 1]]
      ensures LinkAt(ps', i) == LinkAt(ps, i - 1)
    {
    }
    forall i | 0 <= i < |ps'|
      ensures ps'[i] != NULL && ps'[i] in mem' && mem'[ps'[i]].next == LinkAt(ps', i) && Stored(mem'[ps'[i]], c'[i])
    {
      if i >= 2 { assert Stored(mem[ps[i - 1]], c[i - 1]); } else { assert Stored(mem[ps[0]], c[0]); }
    }
  }

  /** Emptying the head of a one-record bucket. */
  lemma EmptyHead(mem: Memory, heads: seq<Addr>, v: View, b: nat)
    requires HeapOk(mem, heads, v) && b < |heads| && |v.recs[b]| == 1
    requires heads[b] in mem
    ensures HeapOk(mem[heads[b] := mem[heads[b]].(keyLen := 0)], heads, v.(recs := v.recs[b := []]))
  {
    BucketLength(mem, heads, v, b);
    assert ChainOk(mem, v.chains[b], v.recs[b]);
    var mem' := mem[heads[b] := mem[heads[b]].(keyLen := 0)];
    assert v.chains == v.chains[b := v.chains[b]];
    HeapUpdate(mem, mem', heads, v, v.(recs := v.recs[b := []]), b);
  }

  /** Copying the second node over the head. */
  lemma CopyToHead(mem: Memory, heads: seq<Addr>, v: View, b: nat)
    requires HeapOk(mem, heads, v) && b < |heads| && |v.recs[b]| >= 2
    requires |v.chains[b]| >= 2 && v.chains[b][1] in mem
    ensures HeapOk(mem[heads[b] := mem[v.chains[b][1]]], heads,
                   v.(chains := v.chains[b := [heads[b]] + v.chains[b][2..]], recs := v.recs[b := v.recs[b][1..]]))
  {
    BucketLength(mem, heads, v, b);
    var ps, c := v.chains[b], v.recs[b];
    CopyToHeadChain(mem, ps, c);
    var v' := v.(chains := v.chains[b := [heads[b]] + ps[2..]], recs := v.recs[b := c[1..]]);
    assert forall i :: 1 <= i < |ps| - 1 ==> v'.chains[b][i] == ps[i + 1];
    HeapUpdate(mem, mem[heads[b] := mem[ps[1]]], heads, v, v', b);
  }

  lemma CopyToHeadChain(mem: Memory, ps: seq<Addr>, c: seq<Rec>)
    requires ChainOk(mem, ps, c) && |c| >= 2
    ensures |ps| == |c| && ChainOk(mem[ps[0] := mem[ps[1]]], [ps[0]] + ps[2..], c[1..])
  {
    var mem' := mem[ps[0] := mem[ps[1]]];
    var ps', c' := [ps[0]] + ps[2..], c[1..];
    assert forall i :: 1 <= i < |ps'| ==> ps'[i] == ps[i + 1];
    forall i | 0 <= i < |ps'|
      ensures ps'[i] != NULL && ps'[i] in mem' && mem'[ps'[i]].next == LinkAt(ps', i) && Stored(mem'[ps'[i]], c'[i])
    {
      var j := i + 1;
      assert c'[i] == c[j] && Stored(mem[ps[j]], c[j]);
      assert mem'[ps'[i]] == mem[ps[j]];
      assert LinkAt(ps', i) == LinkAt(ps, j);
    }
    DistinctAfterCopy(ps);
  }

  lemma DistinctAfterCopy(ps: seq<Addr>)
    requires |ps| >= 2 && forall i, j :: 0 <= i < j < |ps| ==> ps[i] != ps[j]
    ensures var ps' := [ps[0]] + ps[2..]; forall i, j :: 0 <= i < j < |ps'| ==> ps'[i] != ps'[j]
  {
  }

  /** Splicing out the i-th node by rewriting its predecessor. */
  lemma SpliceOut(mem: Memory, heads: seq<Addr>, v: View, b: nat, i: nat)
    requires HeapOk(mem, heads, v) && b < |heads| && 1 <= i < |v.chains[b]|
    requires v.chains[b][i - 1] in mem && v.chains[b][i] in mem
    ensures i < |v.recs[b]|
    ensures HeapOk(mem[v.chains[b][i - 1] := mem[v.chains[b][i - 1]].(next := mem[v.chains[b][i]].next)], heads,
                   v.(chains := v.chains[b := v.chains[b][..i] + v.chains[b][i + 1..]],
                      recs := v.recs[b := v.recs[b][..i] + v.recs[b][i + 1..]]))
  {
    BucketLength(mem, heads, v, b);
    var ps, c := v.chains[b], v.recs[b];
    assert ChainOk(mem, ps, c);
    hide ChainOk;
    var mem' := mem[ps[i - 1] := mem[ps[i - 1]].(next := mem[ps[i]].next)];
    var ps', c' := ps[..i] + ps[i + 1..], c[..i] + c[i + 1..];
    SpliceChain(mem, mem', ps, c, i);
    HeapUpdate(mem, mem', heads, v, v.(chains := v.chains[b := ps'], recs := v.recs[b := c']), b);
  }

  lemma SpliceChain(mem: Memory, mem': Memory, ps: seq<Addr>, c: seq<Rec>, i: nat)
    requires ChainOk(mem, ps, c) && 1 <= i < |ps|
    requires mem' == mem[ps[i - 1] := mem[ps[i - 1]].(next := mem[ps[i]].next)]
    ensures |c| == |ps| && ChainOk(mem', ps[..i] + ps[i + 1..], c[..i] + c[i + 1..])
  {
    hide Stored;
    var ps', c' := ps[..i] + ps[i + 1..], c[..i] + c[i + 1..];
    forall j | 0 <= j < |ps'|
      ensures ps'[j] != NULL && ps'[j] in mem' && Stored(mem'[ps'[j]], c'[j]) && mem'[ps'[j]].next == LinkAt(ps', j)
    {
      SpliceNode(mem, mem', ps, c, i, j);
    }
    SpliceNode(mem, mem', ps, c, i, 0);
    DistinctAfterSplice(ps, i);
  }

  /** The j-th element after the i-th was taken out. */
  lemma AfterDrop<T>(s: seq<T>, i: nat, j: nat)
    requires i < |s| && j < |s| - 1
    ensures |s[..i] + s[i + 1..]| == |s| - 1 && (s[..i] + s[i + 1..])[j] == s[if j < i then j else j + 1]
  {
  }

  lemma LinkAfterDrop(ps: seq<Addr>, i: nat, j: nat)
    requires 1 <= i < |ps| && j < |ps| - 1
    ensures LinkAt(ps[..i] + ps[i + 1..], j) == LinkAt(ps, if j < i - 1 then j else j + 1)
  {
    AfterDrop(ps, i, j);
    if j + 1 < |ps| - 1 { AfterDrop(ps, i, j + 1); }
  }

  lemma SpliceNode(mem: Memory, mem': Memory, ps: seq<Addr>, c: seq<Rec>, i: nat, j: nat)
    requires ChainOk(mem, ps, c) && 1 <= i < |ps| && j < |ps| - 1
    requires mem' == mem[ps[i - 1] := mem[ps[i - 1]].(next := mem[ps[i]].next)]
    ensures |c| == |ps|
    ensures var ps', c' := ps[..i] + ps[i + 1..], c[..i] + c[i + 1..];
            ps'[j] != NULL && ps'[j] in mem' && Stored(mem'[ps'[j]], c'[j]) && mem'[ps'[j]].next == LinkAt(ps', j)
            && mem'[ps'[j]].keyLen == mem[ps'[j]].keyLen
  {
    hide LinkAt;
    AfterDrop(ps, i, j);
    AfterDrop(c, i, j);
    LinkAfterDrop(ps, i, j);
    var k := if j < i then j else j + 1;
    assert Stored(mem[ps[k]], c[k]);
  }

  lemma DistinctAfterSplice(ps: seq<Addr>, i: nat)
    requires i < |ps| && forall j, k :: 0 <= j < k < |ps| ==> ps[j] != ps[k]
    ensures var ps' := ps[..i] + ps[i + 1..]; forall j, k :: 0 <= j < k < |ps'| ==> ps'[j] != ps'[k]
  {
  }

  /** Cutting a bucket down to its head, as a link to NULL does; the write to NULL itself hits no chain. */
  lemma CutAfterHead(mem: Memory, heads: seq<Addr>, v: View, b: nat, junk: Entry)
    requires HeapOk(mem, heads, v) && b < |heads| && v.recs[b] != []
    requires heads[b] in mem
    ensures HeapOk(LinkSecond(mem, heads[b], NULL, junk), heads,
                   v.(chains := v.chains[b := [heads[b]]], recs := v.recs[b := v.recs[b][..1]]))
  {
    BucketLength(mem, heads, v, b);
    var ps, c := v.chains[b], v.recs[b];
    assert ChainOk(mem, ps, c) && Stored(mem[ps[0]], c[0]);
    var mem' := LinkSecond(mem, heads[b], NULL, junk);
    assert ChainOk(mem', [heads[b]], c[..1]);
    HeapUpdate(mem, mem', heads, v, v.(chains := v.chains[b := [heads[b]]], recs := v.recs[b := c[..1]]), b);
  }

  /** Overwriting value and metadata of the i-th node. */
  lemma Overwrite(mem: Memory, heads: seq<Addr>, v: View, b: nat, i: nat, val: nat, meta: Metadata)
    requires HeapOk(mem, heads, v) && b < |heads| && i < |v.recs[b]|
    requires |v.chains[b]| == |v.recs[b]| && v.chains[b][i] in mem
    ensures HeapOk(mem[v.chains[b][i] := mem[v.chains[b][i]].(val := val, meta := meta)], heads,
                   v.(recs := v.recs[b := v.recs[b][i := v.recs[b][i].(val := val, meta := meta)]]))
  {
    var ps, c := v.chains[b], v.recs[b];
    assert ChainOk(mem, ps, c);
    var mem' := mem[ps[i] := mem[ps[i]].(val := val, meta := meta)];
    var c' := c[i := c[i].(val := val, meta := meta)];
    OverwriteChain(mem, ps, c, i, val, meta);
    assert v.chains == v.chains[b := v.chains[b]];
    HeapUpdate(mem, mem', heads, v, v.(recs := v.recs[b := c']), b);
  }

  lemma OverwriteChain(mem: Memory, ps: seq<Addr>, c: seq<Rec>, i: nat, val: nat, meta: Metadata)
    requires ChainOk(mem, ps, c) && i < |c| == |ps|
    ensures ChainOk(mem[ps[i] := mem[ps[i]].(val := val, meta := meta)], ps, c[i := c[i].(val := val, meta := meta)])
  {
    var mem' := mem[ps[i] := mem[ps[i]].(val := val, meta := meta)];
    forall j | 0 <= j < |ps|
      ensures Stored(mem'[ps[j]], c[i := c[i].(val := val, meta := meta)][j]) && mem'[ps[j]].next == LinkAt(ps, j)
    {
      assert Stored(mem[ps[j]], c[j]);
    }
  }

  /** Appending empty buckets whose heads lie at unused addresses. */
  lemma AppendEmpty(mem: Memory, mem': Memory, heads: seq<Addr>, v: View, more: seq<Addr>)
    returns (v': View)
    requires HeapOk(mem, heads, v)
    requires forall a :: a in v.owner ==> a in mem' && mem'[a] == mem[a]
    requires forall i :: 0 <= i < |more| ==> more[i] !in v.owner && more[i] != NULL
    requires forall i :: 0 <= i < |more| ==> more[i] in mem' && mem'[more[i]].keyLen == 0 && mem'[more[i]].next == NULL
    requires forall i, j :: 0 <= i < j < |more| ==> more[i] != more[j]
    ensures HeapOk(mem', heads + more, v')
    ensures v'.recs == v.recs + seq(|more|, i => [])
  {
    hide ChainOk;
    var n := |heads|;
    var added := map i | 0 <= i < |more| :: more[i] := n + i;
    v' := View(v.chains + seq(|more|, i requires 0 <= i < |more| => [more[i]]), v.recs + seq(|more|, i => []),
               v.owner + added);
    forall b | 0 <= b < n + |more| ensures Bucket(mem', heads + more, v', b) {
      if b < n {
        KeptBucket(mem, mem', heads, v, b);
        assert v'.chains[b] == v.chains[b] && v'.recs[b] == v.recs[b];
      } else {
        LoneHead(mem', more[b - n]);
        assert v'.chains[b] == [more[b - n]] && v'.recs[b] == [];
        assert more[b - n] in added;
      }
    }
    BucketsMakeHeap(mem', heads + more, v');
  }

  /** What HeapOk says of one bucket. */
  ghost predicate Bucket(mem: Memory, heads: seq<Addr>, v: View, b: nat)
    requires b < |heads|
  {
    && b < |v.chains| && b < |v.recs| && ChainOk(mem, v.chains[b], v.recs[b]) && |v.chains[b]| > 0
    && v.chains[b][0] == heads[b]
    && forall i :: 0 <= i < |v.chains[b]| ==> v.chains[b][i] in v.owner && v.owner[v.chains[b][i]] == b
  }

  lemma BucketsMakeHeap(mem: Memory, heads: seq<Addr>, v: View)
    requires |v.chains| == |v.recs| == |heads| && v.owner.Keys <= mem.Keys && NULL !in v.owner
    requires forall b :: 0 <= b < |heads| ==> Bucket(mem, heads, v, b)
    ensures HeapOk(mem, heads, v)
  {
    hide ChainOk;
    forall b | 0 <= b < |heads|
      ensures ChainOk(mem, v.chains[b], v.recs[b]) && |v.chains[b]| > 0 && v.chains[b][0] == heads[b]
      ensures forall i :: 0 <= i < |v.chains[b]| ==> v.chains[b][i] in v.owner && v.owner[v.chains[b][i]] == b
    {
      assert Bucket(mem, heads, v, b);
    }
  }

  /** The chain of a bucket, at its head. */
  lemma ChainAt(mem: Memory, heads: seq<Addr>, v: View, b: nat)
    requires HeapOk(mem, heads, v) && b < |heads|
    ensures |v.chains| == |v.recs| == |heads| && ChainOk(mem, v.chains[b], v.recs[b])
    ensures |v.chains[b]| > 0 && v.chains[b][0] == heads[b]
  {
  }

  lemma KeptBucket(mem: Memory, mem': Memory, heads: seq<Addr>, v: View, b: nat)
    requires HeapOk(mem, heads, v) && b < |heads|
    requires forall a :: a in v.owner ==> a in mem' && mem'[a] == mem[a]
    ensures Bucket(mem', heads, v, b)
  {
    assert ChainOk(mem, v.chains[b], v.recs[b]);
    ChainFrame(mem, mem', v.chains[b], v.recs[b]);
  }

  // --- Reading the contents back off the memory -----------------------------------------

  /** The addresses met by following links from `a`; it never visits an address twice. */
  function Walk(mem: Memory, a: Addr): seq<Addr>
    decreases mem.Keys
  {
    if a == NULL || a !in mem then [] else
      assert a in mem.Keys && a !in (mem - {a}).Keys;
      [a] + Walk(mem - {a}, mem[a].next)
  }

  lemma {:induction false} WalkFollows(mem: Memory, rest: Memory, ps: seq<Addr>, c: seq<Rec>, i: nat)
    requires ChainOk(mem, ps, c) && i <= |ps|
    requires rest.Keys <= mem.Keys && forall a :: a in rest ==> rest[a] == mem[a]
    requires forall j :: i <= j < |ps| ==> ps[j] in rest
    ensures Walk(rest, if i < |ps| then ps[i] else NULL) == ps[i..]
    decreases |ps| - i
  {
    if i < |ps| {
      WalkFollows(mem, rest - {ps[i]}, ps, c, i + 1);
      assert ps[i..] == [ps[i]] + ps[i + 1..];
    }
  }

  predicate Readable(mem: Memory, ps: seq<Addr>) {
    forall i :: 0 <= i < |ps| ==> ps[i] in mem && 1 <= mem[ps[i]].keyLen <= 15
  }

  function RecOf(e: Entry): Rec
    requires 1 <= e.keyLen <= 15
  {
    Rec(e.bytes[..e.keyLen], e.val, e.meta)
  }

  /** The records of the bucket at `head`, read off the memory alone. */
  function Contents(mem: Memory, head: Addr): seq<Rec> {
    var ps := Walk(mem, head);
    if Readable(mem, ps) then seq(|ps|, i requires 0 <= i < |ps| => RecOf(mem[ps[i]])) else []
  }

  /** In a well-formed heap the memory determines the records of every bucket. */
  lemma ContentsAreRecs(mem: Memory, heads: seq<Addr>, v: View, b: nat)
    requires HeapOk(mem, heads, v) && b < |heads|
    ensures Walk(mem, heads[b]) == v.chains[b]
    ensures Contents(mem, heads[b]) == v.recs[b]
  {
    var ps, c := v.chains[b], v.recs[b];
    WalkFollows(mem, mem, ps, c, 0);
    assert ps[0..] == ps;
    if c == [] {
      assert mem[ps[0]].keyLen == 0;
      assert !Readable(mem, ps);
    } else {
      assert forall i :: 0 <= i < |ps| ==> Stored(mem[ps[i]], c[i]);
      assert Readable(mem, ps);
      forall i | 0 <= i < |ps| ensures RecOf(mem[ps[i]]) == c[i] {}
    }
  }
}
