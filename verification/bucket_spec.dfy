/** The list a bucket stands for, and the three list operations the chain code implements. */
module BucketSpec {
  import opened Entries

  /** A new record goes second, behind the inline head, or first into an empty bucket. */
  function InsertRec(c: seq<Rec>, r: Rec): seq<Rec> {
    if c == [] then [r] else [c[0], r] + c[1..]
  }

  /** Position of the first record with the key, or the length if there is none. */
  function IndexOf(c: seq<Rec>, key: Key): (i: nat)
    ensures i <= |c|
    ensures forall j :: 0 <= j < i ==> c[j].key != key
    ensures i < |c| ==> c[i].key == key
  {
    if c == [] then 0 else if c[0].key == key then 0 else
      var i := IndexOf(c[1..], key) + 1;
      assert forall j :: 1 <= j < i ==> c[j] == c[1..][j - 1];
      i
  }

  predicate Present(c: seq<Rec>, key: Key) {
    IndexOf(c, key) < |c|
  }

  /** The list without its first record for the key. */
  function RemoveRec(c: seq<Rec>, key: Key): seq<Rec> {
    var i := IndexOf(c, key);
    if i < |c| then c[..i] + c[i + 1..] else c
  }

  /** The value a lookup reports: that of the first record for the key, or 0. */
  function ValueOf(c: seq<Rec>, key: Key): nat {
    if Present(c, key) then c[IndexOf(c, key)].val else 0
  }

  lemma IndexIs(c: seq<Rec>, key: Key, i: nat)
    requires i <= |c| && forall j :: 0 <= j < i ==> c[j].key != key
    requires i < |c| ==> c[i].key == key
    ensures IndexOf(c, key) == i
  {
  }

  /** All values stored under a key, with multiplicity: the abstract meaning of a bucket. */
  ghost function Hits(c: seq<Rec>, key: Key): multiset<nat> {
    if c == [] then multiset{} else
      (if c[0].key == key then multiset{c[0].val} else multiset{}) + Hits(c[1..], key)
  }

  lemma {:induction false} HitsConcat(a: seq<Rec>, b: seq<Rec>, key: Key)
    ensures Hits(a + b, key) == Hits(a, key) + Hits(b, key)
  {
    if a == [] {
      assert a + b == b;
    } else {
      assert (a + b)[1..] == a[1..] + b;
      HitsConcat(a[1..], b, key);
    }
  }

  lemma HitsSingle(r: Rec, key: Key)
    ensures Hits([r], key) == if r.key == key then multiset{r.val} else multiset{}
  {
    assert [r][1..] == [];
  }

  /** Inserting adds one value under the record's key and touches no other key. */
  lemma InsertHits(c: seq<Rec>, r: Rec, key: Key)
    ensures Hits(InsertRec(c, r), key) == Hits(c, key) + if r.key == key then multiset{r.val} else multiset{}
  {
    HitsSingle(r, key);
    if c != [] {
      assert InsertRec(c, r) == ([c[0]] + [r]) + c[1..];
      assert c == [c[0]] + c[1..];
      HitsConcat([c[0]] + [r], c[1..], key);
      HitsConcat([c[0]], [r], key);
      HitsConcat([c[0]], c[1..], key);
    }
  }

  /** Removing takes the looked-up value away from its key, once, and touches no other key. */
  lemma RemoveHits(c: seq<Rec>, key: Key, other: Key)
    ensures Hits(RemoveRec(c, key), other) ==
            if other == key && Present(c, key) then Hits(c, other) - multiset{ValueOf(c, key)} else Hits(c, other)
    ensures Present(c, key) ==> ValueOf(c, key) in Hits(c, key)
  {
    var i := IndexOf(c, key);
    if i < |c| {
      assert c == (c[..i] + [c[i]]) + c[i + 1..];
      HitsConcat(c[..i] + [c[i]], c[i + 1..], other);
      HitsConcat(c[..i], [c[i]], other);
      HitsConcat(c[..i], c[i + 1..], other);
      HitsSingle(c[i], other);
      HitsConcat(c[..i] + [c[i]], c[i + 1..], key);
      HitsConcat(c[..i], [c[i]], key);
      HitsSingle(c[i], key);
    }
  }

  /** A key has values exactly when a lookup finds it. */
  lemma {:induction false} HitsPresent(c: seq<Rec>, key: Key)
    ensures Present(c, key) <==> |Hits(c, key)| > 0
  {
    if c == [] {
    } else {
      HitsPresent(c[1..], key);
      if c[0].key != key { assert Present(c, key) <==> Present(c[1..], key); }
    }
  }

  /** When a key has one value, or none, a lookup reports exactly that. */
  lemma LookupMeaning(c: seq<Rec>, key: Key)
    ensures |Hits(c, key)| == 0 ==> ValueOf(c, key) == 0
    ensures forall v: nat :: Hits(c, key) == multiset{v} ==> ValueOf(c, key) == v
  {
    HitsPresent(c, key);
    RemoveHits(c, key, key);
  }
}
