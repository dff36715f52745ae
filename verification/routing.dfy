/** The host side of a batch: hashing every key to a DPU and building one package per DPU. */
module Routing {
  import opened Entries
  import opened Words
  import opened Mixing
  import opened Tasklets

  const NR_DPUS: nat := 64

  /** Key/value elements that fit one push buffer behind its two headers. */
  const KV_CAPACITY: nat := (2097152 - 16 - 8) / 24

  /** That many elements of 24 bytes, behind a parameter block of 16 and a header of 8, and no more fit a push buffer of
      2 MB. */
  lemma PushCapacityInBytes(n: nat)
    ensures n <= KV_CAPACITY <==> 16 + 8 + 24 * n <= 2097152
  {
  }

  /** With the package's own header of 16 bytes a package ends where the DPU's result list begins, at 2 MB, unless it is
      full: the last 8 bytes of a full package lie in the list's header. */
  lemma FullPackageReachesResults(n: nat)
    requires n <= KV_CAPACITY
    ensures 16 + 16 + 8 + 24 * n <= 0x200000 <==> n < KV_CAPACITY
    ensures 16 + 16 + 8 + 24 * KV_CAPACITY == 0x200000 + 8
  {
  }

  /** The DPU a key belongs to; it depends on the key's bytes and length only. */
  function Route(key: Key): (d: nat)
    ensures d < NR_DPUS
  {
    HashInt(HashFrom(HOST_SEED, key)) % NR_DPUS
  }

  /** The host's hash of a key; UnHash takes it back to the polynomial in 33 with seed 5381. */
  method HashFunction(buf: Key) returns (h: nat)
    ensures h < 0x1_0000_0000 && UnHash(h) == (5381 * Pow33(|buf|) + Digits33(buf)) % 0x1_0000_0000
    ensures h % NR_DPUS == Route(buf)
  {
    hide HashInt, HashFrom, UnHash, Pow33, Digits33;
    var hash := HashBytes(HOST_SEED, buf);
    HashIsPolynomial(HOST_SEED, buf);
    MixingUndone(hash);
    h := HashInt(hash);
  }

  /** The route in numbers: the one word that UnHash takes to the key's polynomial, modulo 64. */
  lemma RouteInNumbers(key: Key, h: Word)
    requires UnHash(h) == (5381 * Pow33(|key|) + Digits33(key)) % 0x1_0000_0000
    ensures Route(key) == h % 64
  {
    hide HashInt, UnHash;
    HashIsPolynomial(HOST_SEED, key);
    MixingUndone(h);
  }

  /** The elements of a batch that go to DPU d, in batch order. */
  function Part(items: seq<Item>, d: nat): (r: seq<Item>)
    ensures |r| <= |items|
  {
    if items == [] then [] else
      var n := |items| - 1;
      Part(items[..n], d) + if Route(items[n].key) == d then [items[n]] else []
  }

  /** The batch positions of those elements. */
  function Positions(items: seq<Item>, d: nat): seq<nat> {
    if items == [] then [] else
      var n := |items| - 1;
      Positions(items[..n], d) + if Route(items[n].key) == d then [n] else []
  }

  /** A package is a stable selection: its elements come from strictly increasing batch positions, and from
      all positions whose key belongs to the DPU. */
  lemma {:induction false} PackageIsStableSelection(items: seq<Item>, d: nat)
    ensures |Positions(items, d)| == |Part(items, d)|
    ensures forall j :: 0 <= j < |Part(items, d)| ==>
            Positions(items, d)[j] < |items| && Part(items, d)[j] == items[Positions(items, d)[j]]
    ensures forall i, j :: 0 <= i < j < |Positions(items, d)| ==> Positions(items, d)[i] < Positions(items, d)[j]
    ensures forall i: nat :: i in Positions(items, d) <==> i < |items| && Route(items[i].key) == d
  {
    hide Route;
    if items != [] {
      PackageIsStableSelection(items[..|items| - 1], d);
      SelectionStep(items, d);
      hide Part, Positions;
    }
  }

  lemma SelectionStep(items: seq<Item>, d: nat)
    requires items != []
    ensures var n := |items| - 1;
            && Part(items, d) == Part(items[..n], d) + (if Route(items[n].key) == d then [items[n]] else [])
            && Positions(items, d) == Positions(items[..n], d) + (if Route(items[n].key) == d then [n] else [])
  {
    hide Route;
  }

  /** Every batch position is in the package of exactly one DPU. */
  lemma EveryElementOnce(items: seq<Item>, i: nat)
    requires i < |items|
    ensures forall d: nat :: i in Positions(items, d) <==> d == Route(items[i].key)
  {
    forall d: nat ensures i in Positions(items, d) <==> d == Route(items[i].key) {
      PackageIsStableSelection(items, d);
    }
  }

  /** All packages one after the other. */
  function Parts(items: seq<Item>, n: nat): seq<Item> {
    if n == 0 then [] else Parts(items, n - 1) + Part(items, n - 1)
  }

  lemma PartAppend(items: seq<Item>, it: Item, d: nat)
    ensures Part(items + [it], d) == Part(items, d) + if Route(it.key) == d then [it] else []
  {
    hide Route;
    assert (items + [it])[..|items|] == items;
  }

  lemma PartAppendOne(items: seq<Item>, it: Item, d: nat)
    ensures multiset(Part(items + [it], d)) == multiset(Part(items, d)) + if Route(it.key) == d then multiset{it}
            else multiset{}
  {
    hide Route, Part;
    PartAppend(items, it, d);
  }

  lemma {:induction false} PartsAppend(items: seq<Item>, it: Item, n: nat)
    ensures multiset(Parts(items + [it], n)) == multiset(Parts(items, n)) + if Route(it.key) < n then multiset{it}
            else multiset{}
  {
    hide Route, Part;
    if n > 0 {
      PartsAppend(items, it, n - 1);
      PartAppendOne(items, it, n - 1);
      if Route(it.key) == n - 1 {
        assert multiset(Parts(items + [it], n)) == multiset(Parts(items, n)) + multiset{it};
      }
    }
  }

  lemma {:induction false} PartsOfNothing(n: nat)
    ensures Parts([], n) == []
  {
    if n > 0 { PartsOfNothing(n - 1); }
  }

  /** The packages together hold the batch, nothing more and nothing less. */
  lemma {:induction false} PackagesPermuteBatch(items: seq<Item>)
    ensures multiset(Parts(items, NR_DPUS)) == multiset(items)
  {
    hide Route, Part;
    if items == [] {
      PartsOfNothing(NR_DPUS);
    } else {
      var n := |items| - 1;
      PackagesPermuteBatch(items[..n]);
      PartsAppend(items[..n], items[n], NR_DPUS);
      assert items == items[..n] + [items[n]];
    }
  }

  function InsertItems(keys: seq<Key>, vals: seq<nat>): (r: seq<Item>)
    requires |vals| == |keys|
    ensures |r| == |keys| && forall i :: 0 <= i < |r| ==> r[i] == Item(keys[i], vals[i])
  {
    seq(|keys|, i requires 0 <= i < |keys| => Item(keys[i], vals[i]))
  }

  /** A delete sends keys only. */
  function DeleteItems(keys: seq<Key>): (r: seq<Item>)
    ensures |r| == |keys| && forall i :: 0 <= i < |r| ==> r[i] == Item(keys[i], 0)
  {
    seq(|keys|, i requires 0 <= i < |keys| => Item(keys[i], 0))
  }

  /** A lookup sends every key with its position in the batch. */
  function LookupItems(keys: seq<Key>): (r: seq<Item>)
    ensures |r| == |keys| && forall i :: 0 <= i < |r| ==> r[i] == Item(keys[i], i)
  {
    seq(|keys|, i requires 0 <= i < |keys| => Item(keys[i], i))
  }

  /** In a lookup package the key_ids strictly increase. */
  lemma LookupKeyIdsIncrease(keys: seq<Key>, d: nat)
    ensures forall i, j :: 0 <= i < j < |Part(LookupItems(keys), d)| ==>
            Part(LookupItems(keys), d)[i].arg < Part(LookupItems(keys), d)[j].arg
  {
    PackageIsStableSelection(LookupItems(keys), d);
  }

  datatype Package = Package(op: OpType, id: int, items: seq<Item>)

  predicate PackagesFit(items: seq<Item>) {
    forall d :: 0 <= d < NR_DPUS ==> |Part(items, d)| <= KV_CAPACITY
  }

  /** The push buffers of a set of DPUs. */
  class PushInfo {
    const packages: array<Package>

    ghost predicate Valid() {
      packages.Length == NR_DPUS
    }

    constructor ()
      ensures Valid() && fresh(packages)
    {
      packages := new Package[NR_DPUS](_ => Package(LookupOp, 0, []));
    }

    /** Empty packages for one operation on one index. */
    method Prepare(op: OpType, id: int)
      requires Valid()
      modifies packages
      ensures forall d :: 0 <= d < NR_DPUS ==> packages[d] == Package(op, id, [])
    {
      for i := 0 to NR_DPUS
        invariant forall d :: 0 <= d < i ==> packages[d] == Package(op, id, [])
      {
        packages[i] := Package(op, id, []);
      }
    }

    /** Appends one element to its DPU's package. */
    method Add(it: Item, ghost done: seq<Item>, ghost op: OpType, ghost id: int)
      requires Valid() && forall d :: 0 <= d < NR_DPUS ==> packages[d] == Package(op, id, Part(done, d))
      modifies packages
      ensures forall d :: 0 <= d < NR_DPUS ==> packages[d] == Package(op, id, Part(done + [it], d))
    {
      var h := HashFunction(it.key);
      var dpuId := h % NR_DPUS;
      forall d | 0 <= d < NR_DPUS
        ensures Part(done + [it], d) == Part(done, d) + if Route(it.key) == d then [it] else []
      {
        PartAppend(done, it, d);
      }
      packages[dpuId] := packages[dpuId].(items := packages[dpuId].items + [it]);
    }

    method BuildInsert(id: int, keys: seq<Key>, vals: seq<nat>)
      requires Valid() && |vals| == |keys| && PackagesFit(InsertItems(keys, vals))
      modifies packages
      ensures forall d :: 0 <= d < NR_DPUS ==> packages[d] == Package(InsertOp, id, Part(InsertItems(keys, vals), d))
    {
      ghost var items := InsertItems(keys, vals);
      Prepare(InsertOp, id);
      for i := 0 to |keys|
        invariant forall d :: 0 <= d < NR_DPUS ==> packages[d] == Package(InsertOp, id, Part(items[..i], d))
      {
        assert items[..i + 1] == items[..i] + [Item(keys[i], vals[i])];
        Add(Item(keys[i], vals[i]), items[..i], InsertOp, id);
      }
      assert items[..|keys|] == items;
    }

    method BuildDelete(id: int, keys: seq<Key>)
      requires Valid() && PackagesFit(DeleteItems(keys))
      modifies packages
      ensures forall d :: 0 <= d < NR_DPUS ==> packages[d] == Package(DeleteOp, id, Part(DeleteItems(keys), d))
    {
      ghost var items := DeleteItems(keys);
      Prepare(DeleteOp, id);
      for i := 0 to |keys|
        invariant forall d :: 0 <= d < NR_DPUS ==> packages[d] == Package(DeleteOp, id, Part(items[..i], d))
      {
        assert items[..i + 1] == items[..i] + [Item(keys[i], 0)];
        Add(Item(keys[i], 0), items[..i], DeleteOp, id);
      }
      assert items[..|keys|] == items;
    }

    method BuildLookup(id: int, keys: seq<Key>)
      requires Valid() && PackagesFit(LookupItems(keys))
      modifies packages
      ensures forall d :: 0 <= d < NR_DPUS ==> packages[d] == Package(LookupOp, id, Part(LookupItems(keys), d))
    {
      ghost var items := LookupItems(keys);
      Prepare(LookupOp, id);
      for i := 0 to |keys|
        invariant forall d :: 0 <= d < NR_DPUS ==> packages[d] == Package(LookupOp, id, Part(items[..i], d))
      {
        assert items[..i + 1] == items[..i] + [Item(keys[i], i)];
        Add(Item(keys[i], i), items[..i], LookupOp, id);
      }
      assert items[..|keys|] == items;
    }
  }
}
