/** Logs written by several tasklets, and what they have in common with the tasklets' own sequences. */
module Interleavings {
  import opened Util

  datatype Ev<+T> = Ev(who: nat, what: T)

  /** The entries of one tasklet, in order. */
  function Proj<T>(log: seq<Ev<T>>, t: nat): seq<T> {
    if log == [] then [] else
      var last := log[|log| - 1];
      Proj(log[..|log| - 1], t) + if last.who == t then [last.what] else []
  }

  function Whats<T>(log: seq<Ev<T>>): seq<T> {
    seq(|log|, i requires 0 <= i < |log| => log[i].what)
  }

  /** A block of entries by one tasklet. */
  function Tagged<T>(t: nat, block: seq<T>): seq<Ev<T>> {
    seq(|block|, i requires 0 <= i < |block| => Ev(t, block[i]))
  }

  ghost predicate Below<T>(log: seq<Ev<T>>, p: nat) {
    forall i :: 0 <= i < |log| ==> log[i].who < p
  }

  lemma ProjAppend<T>(log: seq<Ev<T>>, e: Ev<T>, t: nat)
    ensures Proj(log + [e], t) == Proj(log, t) + if e.who == t then [e.what] else []
  {
    assert (log + [e])[..|log|] == log;
  }

  lemma {:induction false} ProjAppendBlock<T>(log: seq<Ev<T>>, who: nat, block: seq<T>, t: nat)
    ensures Proj(log + Tagged(who, block), t) == Proj(log, t) + if who == t then block else []
  {
    hide Proj;
    if block == [] {
      assert log + Tagged(who, block) == log;
    } else {
      var n := |block| - 1;
      ProjAppendBlock(log, who, block[..n], t);
      assert log + Tagged(who, block) == (log + Tagged(who, block[..n])) + [Ev(who, block[n])];
      ProjAppend(log + Tagged(who, block[..n]), Ev(who, block[n]), t);
      assert block == block[..n] + [block[n]];
    }
  }

  /** The tasklets' sequences one after the other. */
  function ProjAll<T>(log: seq<Ev<T>>, p: nat): seq<T> {
    if p == 0 then [] else ProjAll(log, p - 1) + Proj(log, p - 1)
  }

  lemma {:induction false} ProjAllAppend<T>(log: seq<Ev<T>>, e: Ev<T>, p: nat)
    ensures multiset(ProjAll(log + [e], p)) == multiset(ProjAll(log, p)) + if e.who < p then multiset{e.what}
            else multiset{}
  {
    hide Proj;
    if p > 0 {
      ProjAllAppend(log, e, p - 1);
      ProjAppend(log, e, p - 1);
    }
  }

  lemma {:induction false} ProjAllEmpty<T>(p: nat)
    ensures ProjAll<T>([], p) == []
  {
    if p > 0 { ProjAllEmpty<T>(p - 1); }
  }

  lemma {:induction false} ProjAllPermutes<T>(log: seq<Ev<T>>, p: nat)
    requires Below(log, p)
    ensures multiset(ProjAll(log, p)) == multiset(Whats(log))
  {
    if log == [] {
      ProjAllEmpty<T>(p);
    } else {
      var n := |log| - 1;
      ProjAllPermutes(log[..n], p);
      ProjAllAppend(log[..n], log[n], p);
      assert log == log[..n] + [log[n]];
      assert Whats(log) == Whats(log[..n]) + [log[n].what];
    }
  }

  lemma {:induction false} ProjAllBlocks<T>(log: seq<Ev<T>>, items: seq<T>, p: nat, r: nat)
    requires r <= p && p > 0
    requires forall t :: 0 <= t < p ==> Proj(log, t) == Block(items, p, t)
    ensures ProjAll(log, r) == Blocks(items, p, r)
  {
    if r > 0 { ProjAllBlocks(log, items, p, r - 1); }
  }

  lemma SameMembers<T>(a: seq<T>, b: seq<T>)
    requires multiset(a) == multiset(b)
    ensures forall x :: x in a <==> x in b
  {
    forall x ensures x in a <==> x in b {
      assert x in a <==> x in multiset(a);
    }
  }

  /** A log in which every tasklet wrote exactly its block of the batch is a permutation of the batch. */
  lemma LogPermutesBatch<T>(log: seq<Ev<T>>, items: seq<T>, p: nat)
    requires p > 0 && Below(log, p)
    requires forall t :: 0 <= t < p ==> Proj(log, t) == Block(items, p, t)
    ensures multiset(Whats(log)) == multiset(items)
  {
    ProjAllPermutes(log, p);
    ProjAllBlocks(log, items, p, p);
    BlocksCover(items, p);
  }
}
