/** What a finished batch means for the values stored under each key, whatever its tasklets' interleaving. */
module Batches {
  import opened Util
  import opened Entries
  import opened BucketSpec
  import opened ChainHeap
  import opened PrimaryIndex
  import opened Interleavings
  import opened Tasklets
  import opened TaskletInvariant
  import opened TaskletResults
  import opened TaskletTheorems

  /** The arguments a batch gives for a key, with multiplicity. */
  ghost function ArgsFor(items: seq<Item>, key: Key): multiset<nat> {
    if items == [] then multiset{} else
      (if items[0].key == key then multiset{items[0].arg} else multiset{}) + ArgsFor(items[1..], key)
  }

  lemma {:induction false} ArgsConcat(a: seq<Item>, b: seq<Item>, key: Key)
    ensures ArgsFor(a + b, key) == ArgsFor(a, key) + ArgsFor(b, key)
  {
    if a == [] {
      assert a + b == b;
    } else {
      assert (a + b)[1..] == a[1..] + b;
      ArgsConcat(a[1..], b, key);
    }
  }

  lemma ArgsSingle(it: Item, key: Key)
    ensures ArgsFor([it], key) == if it.key == key then multiset{it.arg} else multiset{}
  {
    assert [it][1..] == [];
  }

  lemma DropOne(items: seq<Item>, i: nat)
    requires i < |items|
    ensures multiset(items[..i] + items[i + 1..]) == multiset(items) - multiset{items[i]}
  {
    assert items == items[..i] + [items[i]] + items[i + 1..];
  }

  lemma ArgsDropOne(items: seq<Item>, i: nat, key: Key)
    requires i < |items|
    ensures ArgsFor(items, key) == ArgsFor([items[i]], key) + ArgsFor(items[..i] + items[i + 1..], key)
  {
    assert items == (items[..i] + [items[i]]) + items[i + 1..];
    ArgsConcat(items[..i] + [items[i]], items[i + 1..], key);
    ArgsConcat(items[..i], [items[i]], key);
    ArgsConcat(items[..i], items[i + 1..], key);
  }

  lemma FindItem(a: seq<Item>, b: seq<Item>) returns (i: nat)
    requires a != [] && multiset(a) == multiset(b)
    ensures i < |b| && b[i] == a[0] && multiset(a[1..]) == multiset(b[..i] + b[i + 1..])
  {
    DropFirst(a);
    i :| i < |b| && b[i] == a[0];
    DropOne(b, i);
  }

  lemma DropFirst(items: seq<Item>)
    requires items != []
    ensures multiset(items[1..]) == multiset(items) - multiset{items[0]} && items[0] in multiset(items)
  {
    assert items == [items[0]] + items[1..];
  }

  /** The order of a batch does not matter. */
  lemma {:induction false} ArgsPermuted(a: seq<Item>, b: seq<Item>, key: Key)
    requires multiset(a) == multiset(b)
    ensures ArgsFor(a, key) == ArgsFor(b, key)
  {
    hide ArgsFor;
    if a == [] {
      assert |multiset(b)| == 0;
    } else {
      var i := FindItem(a, b);
      ArgsPermuted(a[1..], b[..i] + b[i + 1..], key);
      ArgsDropOne(a, 0, key);
      assert a[..0] + a[1..] == a[1..];
      ArgsDropOne(b, i, key);
    }
  }

  /** A key is named in a batch exactly when the batch gives arguments for it. */
  lemma {:induction false} ArgsNamed(items: seq<Item>, key: Key)
    ensures |ArgsFor(items, key)| > 0 <==> exists i :: 0 <= i < |items| && items[i].key == key
  {
    if items != [] {
      ArgsNamed(items[1..], key);
      if items[0].key == key {
        assert items[0].arg in ArgsFor(items, key);
      } else if |ArgsFor(items[1..], key)| > 0 {
        var i :| 0 <= i < |items[1..]| && items[1..][i].key == key;
        assert items[i + 1].key == key;
      } else {
        assert forall i :: 1 <= i < |items| ==> items[i] == items[1..][i - 1];
      }
    }
  }

  /** The values a key has in the index the batch addresses. */
  ghost function ValuesOf(cfg: Config, recs: seq<seq<Rec>>, key: Key): multiset<nat>
    requires cfg.size > 0
  {
    var b := BucketOf(cfg, key);
    if b < |recs| then Hits(recs[b], key) else multiset{}
  }

  /** An answer is one of the key's values, whichever interleaving put it first, or 0 for a key without any. */
  lemma AnswerMeaning(cfg: Config, recs: seq<seq<Rec>>, it: Item)
    requires cfg.size > 0
    ensures Answer(cfg, recs, it).row == it.arg
    ensures if ValuesOf(cfg, recs, it.key) == multiset{} then Answer(cfg, recs, it).val == 0
            else Answer(cfg, recs, it).val in ValuesOf(cfg, recs, it.key)
  {
    var b := BucketOf(cfg, it.key);
    hide BucketOf, Hits, Present, ValueOf;
    if b < |recs| {
      HitsPresent(recs[b], it.key);
      RemoveHits(recs[b], it.key, it.key);
      LookupMeaning(recs[b], it.key);
    }
  }

  // --- The meaning of a log, key by key -----------------------------------------------------

  lemma ArgsAppend(log: seq<Ev<Item>>, key: Key)
    requires log != []
    ensures var n := |log| - 1; var it := log[n].what;
            ArgsFor(Whats(log), key) == ArgsFor(Whats(log[..n]), key) + if it.key == key then multiset{it.arg}
              else multiset{}
  {
    var n := |log| - 1;
    assert Whats(log) == Whats(log[..n]) + [log[n].what];
    ArgsConcat(Whats(log[..n]), [log[n].what], key);
    ArgsSingle(log[n].what, key);
  }

  lemma InsertOne(cfg: Config, recs: seq<seq<Rec>>, it: Item, meta: Metadata, b: nat, key: Key)
    requires cfg.size > 0 && cfg.op == InsertOp && b < |recs|
    ensures Hits(ApplyOne(cfg, recs, it, meta)[b], key) ==
            Hits(recs[b], key) + if b == BucketOf(cfg, key) && it.key == key then multiset{it.arg} else multiset{}
  {
    hide Hits, InsertRec;
    InsertHits(recs[b], Rec(it.key, it.arg, meta), key);
  }

  /** An insert log adds its arguments to the keys' values in the index, and changes nothing else. */
  lemma {:induction false} InsertLog(cfg: Config, recs: seq<seq<Rec>>, log: seq<Ev<Item>>, metas: seq<Metadata>,
                                     b: nat, key: Key)
    requires cfg.size > 0 && cfg.op == InsertOp && |metas| == |log| && b < |recs|
    ensures Hits(Apply(cfg, recs, log, metas)[b], key) ==
            Hits(recs[b], key) + if b == BucketOf(cfg, key) then ArgsFor(Whats(log), key) else multiset{}
    decreases |log|
  {
    hide Hits, ApplyOne, BucketOf;
    if log != [] {
      var n := |log| - 1;
      InsertLog(cfg, recs, log[..n], metas[..n], b, key);
      ArgsAppend(log, key);
      hide ArgsFor;
      InsertOne(cfg, Apply(cfg, recs, log[..n], metas[..n]), log[n].what, metas[n], b, key);
    }
  }

  function Minus(a: nat, b: nat): nat {
    if a > b then a - b else 0
  }

  /** The values after n deletes of a key: some of those before, n less, or none. */
  ghost predicate Deleted(before: multiset<nat>, after: multiset<nat>, n: nat) {
    after <= before && |after| == Minus(|before|, n)
  }

  lemma DeleteOne(cfg: Config, recs: seq<seq<Rec>>, it: Item, meta: Metadata, b: nat, key: Key)
    requires cfg.size > 0 && cfg.op == DeleteOp && b < |recs|
    ensures Deleted(Hits(recs[b], key), Hits(ApplyOne(cfg, recs, it, meta)[b], key),
                    if b == BucketOf(cfg, key) && it.key == key then 1 else 0)
  {
    hide Hits, RemoveRec, Present, ValueOf;
    RemoveHits(recs[b], it.key, key);
    HitsPresent(recs[b], key);
  }

  /** A delete log takes as many values off a key as it names the key, as far as there are any. */
  lemma {:induction false} DeleteLog(cfg: Config, recs: seq<seq<Rec>>, log: seq<Ev<Item>>, metas: seq<Metadata>,
                                     b: nat, key: Key)
    requires cfg.size > 0 && cfg.op == DeleteOp && |metas| == |log| && b < |recs|
    ensures Deleted(Hits(recs[b], key), Hits(Apply(cfg, recs, log, metas)[b], key),
                    if b == BucketOf(cfg, key) then |ArgsFor(Whats(log), key)| else 0)
    decreases |log|
  {
    hide Hits, ApplyOne, BucketOf;
    if log != [] {
      var n := |log| - 1;
      DeleteLog(cfg, recs, log[..n], metas[..n], b, key);
      ArgsAppend(log, key);
      hide ArgsFor;
      DeleteOne(cfg, Apply(cfg, recs, log[..n], metas[..n]), log[n].what, metas[n], b, key);
    }
  }

  // --- Finished launches --------------------------------------------------------------------

  /** A run from a launch state until everything is done. */
  ghost predicate FinishedRun(cfg: Config, run: seq<State>, who: seq<nat>, view: View) {
    IsRun(cfg, run, who) && Ready(cfg, run[0], view) && AllDone(run[|who|])
  }

  /** Every finished launch is a sequential execution of its batch in some order that keeps the order of
      each tasklet's slice: `log` is that order, and no element is lost or repeated. */
  lemma Serialised(cfg: Config, run: seq<State>, who: seq<nat>, view: View)
    returns (log: seq<Ev<Item>>, metas: seq<Metadata>, view': View)
    requires FinishedRun(cfg, run, who, view)
    ensures |metas| == |log| && IndexOk(cfg, run[|who|].mem, run[|who|].cur, view')
    ensures view'.recs == Apply(cfg, view.recs, log, metas)
    ensures FindIndex(cfg.descs, cfg.id).Some? && cfg.op != LookupOp ==> multiset(Whats(log)) == multiset(cfg.items)
    ensures FindIndex(cfg.descs, cfg.id).None? || cfg.op == LookupOp ==> view'.recs == view.recs
    ensures |run[|who|].tasks| > 0
    ensures FindIndex(cfg.descs, cfg.id).Some? && cfg.op != LookupOp ==>
              forall t :: 0 <= t < |run[|who|].tasks| ==> Proj(log, t) == Block(cfg.items, |run[|who|].tasks|, t)
  {
    hide Ready, AllDone, Inv, IndexOk, Apply, Block, Step;
    var s := run[|who|];
    LaunchInv(cfg, run[0], view);
    var g := RunKeepsInv(cfg, view.recs, run, who, InitialGhost(run[0], view), |who|);
    FinalMemory(cfg, view.recs, s, g);
    log, metas, view' := g.log, g.metas, g.view;
    if FindIndex(cfg.descs, cfg.id).None? {
      FinalUnknown(cfg, view.recs, s, g);
    } else if cfg.op == LookupOp {
      LookupRecs(cfg, view.recs, s, g);
    } else {
      FinalLog(cfg, view.recs, s, g);
    }
  }

  /** The values a memory holds under a key in the bucket at `head`. */
  ghost function Values(mem: Memory, head: Addr, key: Key): multiset<nat> {
    Hits(Contents(mem, head), key)
  }

  lemma ValuesAreHits(cfg: Config, mem: Memory, cur: Addr, view: View)
    requires cfg.size > 0 && IndexOk(cfg, mem, cur, view)
    ensures |view.recs| == |cfg.heads|
    ensures forall b, key: Key :: 0 <= b < |cfg.heads| ==> Values(mem, cfg.heads[b], key) == Hits(view.recs[b], key)
  {
    hide Hits, Contents, HeapOk, Homed;
    HeapSizes(mem, cfg.heads, view);
    forall b, key: Key | 0 <= b < |cfg.heads| ensures Values(mem, cfg.heads[b], key) == Hits(view.recs[b], key) {
      ContentsAreRecs(mem, cfg.heads, view, b);
    }
  }

  /** Every finished insert batch adds exactly its values to the keys of its index, whatever the interleaving. */
  lemma InsertBatch(cfg: Config, run: seq<State>, who: seq<nat>, view: View) returns (view': View)
    requires FinishedRun(cfg, run, who, view) && cfg.op == InsertOp && FindIndex(cfg.descs, cfg.id).Some?
    ensures IndexOk(cfg, run[|who|].mem, run[|who|].cur, view')
    ensures forall b, key: Key :: 0 <= b < |cfg.heads| ==>
              Values(run[|who|].mem, cfg.heads[b], key) ==
              Values(run[0].mem, cfg.heads[b], key)
              + if b == BucketOf(cfg, key) then ArgsFor(cfg.items, key) else multiset{}
  {
    hide IndexOk, Apply, Block, Step, AllDone, Values, BucketOf, ArgsFor, Hits;
    var log, metas, v := Serialised(cfg, run, who, view);
    view' := v;
    ValuesAreHits(cfg, run[0].mem, run[0].cur, view);
    ValuesAreHits(cfg, run[|who|].mem, run[|who|].cur, view');
    forall b, key: Key | 0 <= b < |cfg.heads|
      ensures Values(run[|who|].mem, cfg.heads[b], key) ==
              Values(run[0].mem, cfg.heads[b], key)
              + if b == BucketOf(cfg, key) then ArgsFor(cfg.items, key) else multiset{}
    {
      assert Values(run[|who|].mem, cfg.heads[b], key) == Hits(view'.recs[b], key);
      assert Values(run[0].mem, cfg.heads[b], key) == Hits(view.recs[b], key);
      InsertLog(cfg, view.recs, log, metas, b, key);
      ArgsPermuted(Whats(log), cfg.items, key);
    }
  }

  /** Every finished delete batch removes one value per request from the keys of its index, as far as there
      are any, whatever the interleaving; the survivors are values the key had. */
  lemma DeleteBatch(cfg: Config, run: seq<State>, who: seq<nat>, view: View) returns (view': View)
    requires FinishedRun(cfg, run, who, view) && cfg.op == DeleteOp && FindIndex(cfg.descs, cfg.id).Some?
    ensures IndexOk(cfg, run[|who|].mem, run[|who|].cur, view')
    ensures forall b, key: Key :: 0 <= b < |cfg.heads| ==>
              Deleted(Values(run[0].mem, cfg.heads[b], key), Values(run[|who|].mem, cfg.heads[b], key),
                      if b == BucketOf(cfg, key) then |ArgsFor(cfg.items, key)| else 0)
  {
    hide IndexOk, Apply, Block, Step, AllDone, Values, BucketOf, ArgsFor, Hits, Deleted;
    var log, metas, v := Serialised(cfg, run, who, view);
    view' := v;
    ValuesAreHits(cfg, run[0].mem, run[0].cur, view);
    ValuesAreHits(cfg, run[|who|].mem, run[|who|].cur, view');
    forall b, key: Key | 0 <= b < |cfg.heads|
      ensures Deleted(Values(run[0].mem, cfg.heads[b], key), Values(run[|who|].mem, cfg.heads[b], key),
                      if b == BucketOf(cfg, key) then |ArgsFor(cfg.items, key)| else 0)
    {
      assert Values(run[|who|].mem, cfg.heads[b], key) == Hits(view'.recs[b], key);
      assert Values(run[0].mem, cfg.heads[b], key) == Hits(view.recs[b], key);
      DeleteLog(cfg, view.recs, log, metas, b, key);
      ArgsPermuted(Whats(log), cfg.items, key);
    }
  }

  /** With at most one value per key, a delete batch removes exactly the keys it names, even those it
      names several times, and leaves every other key as it was. */
  lemma DeleteBatchOnMap(cfg: Config, run: seq<State>, who: seq<nat>, view: View, key: Key)
    requires FinishedRun(cfg, run, who, view) && cfg.op == DeleteOp && FindIndex(cfg.descs, cfg.id).Some?
    requires BucketOf(cfg, key) < |cfg.heads| && |Values(run[0].mem, cfg.heads[BucketOf(cfg, key)], key)| <= 1
    ensures Values(run[|who|].mem, cfg.heads[BucketOf(cfg, key)], key) ==
            if exists i :: 0 <= i < |cfg.items| && cfg.items[i].key == key then multiset{}
            else Values(run[0].mem, cfg.heads[BucketOf(cfg, key)], key)
  {
    hide IndexOk, Launch, Block, Step, AllDone, Values, BucketOf, ArgsFor;
    var _ := DeleteBatch(cfg, run, who, view);
    ArgsNamed(cfg.items, key);
    if |ArgsFor(cfg.items, key)| == 0 {
      SmallSubset(Values(run[|who|].mem, cfg.heads[BucketOf(cfg, key)], key),
                  Values(run[0].mem, cfg.heads[BucketOf(cfg, key)], key));
    }
  }

  lemma SmallSubset(a: multiset<nat>, b: multiset<nat>)
    requires a <= b && |a| == |b|
    ensures a == b
  {
    assert b == a + (b - a);
  }

  /** Every finished lookup batch leaves the values of all keys alone and reports, for every element once,
      its key_id with the value of the key's first record, or 0. */
  lemma LookupBatch(cfg: Config, run: seq<State>, who: seq<nat>, view: View) returns (view': View)
    requires FinishedRun(cfg, run, who, view) && cfg.op == LookupOp
    ensures IndexOk(cfg, run[|who|].mem, run[|who|].cur, view') && view'.recs == view.recs
    ensures forall b, key: Key :: 0 <= b < |cfg.heads| ==>
            Values(run[|who|].mem, cfg.heads[b], key) == Values(run[0].mem, cfg.heads[b], key)
    ensures FindIndex(cfg.descs, cfg.id).None? ==> run[|who|].resultSize == run[|who|].nnz == 0
    ensures FindIndex(cfg.descs, cfg.id).Some? ==>
              run[|who|].nnz == run[|who|].resultSize == |cfg.items| <= |run[|who|].data|
              && multiset(run[|who|].data[..|cfg.items|]) == multiset(Answers(cfg, view.recs, cfg.items))
  {
    hide IndexOk, Apply, Block, Step, Values, BucketOf, Hits, Inv, AllDone, Answers;
    var log, metas, v := Serialised(cfg, run, who, view);
    view' := v;
    ValuesAreHits(cfg, run[0].mem, run[0].cur, view);
    ValuesAreHits(cfg, run[|who|].mem, run[|who|].cur, view');
    LaunchInv(cfg, run[0], view);
    var g := RunKeepsInv(cfg, view.recs, run, who, InitialGhost(run[0], view), |who|);
    if FindIndex(cfg.descs, cfg.id).Some? {
      FinalResults(cfg, view.recs, run[|who|], g);
    } else {
      FinalUnknown(cfg, view.recs, run[|who|], g);
    }
  }
}
