/** Coordinate lists: appending, merging, ordered addition and one-pass subtraction. */
module Coo {
  import opened Util

  datatype Elem = Elem(row: int, col: int)

  /** The order of rows, then columns. */
  predicate Less(a: Elem, b: Elem) {
    a.row < b.row || (a.row == b.row && a.col < b.col)
  }

  /** Two elements in row order, and in column order within a row. */
  predicate InOrder(a: Elem, b: Elem) {
    a.row < b.row || (a.row == b.row && a.col <= b.col)
  }

  /** In row order, and in column order within a row. */
  ghost predicate Sorted(s: seq<Elem>) {
    forall i, j :: 0 <= i < j < |s| ==> InOrder(s[i], s[j])
  }

  /** The order the addition compares by is the one lists are sorted by. */
  lemma LessIsNotInOrder(a: Elem, b: Elem)
    ensures InOrder(a, b) <==> !Less(b, a)
  {
  }

  /** The ordered merge of two lists; between equal elements the second list's comes first. */
  function Sum(a: seq<Elem>, b: seq<Elem>): seq<Elem> {
    if a == [] then b else if b == [] then a
    else if Less(a[0], b[0]) then [a[0]] + Sum(a[1..], b) else [b[0]] + Sum(a, b[1..])
  }

  /** One pass over b that drops every element equal to the next undropped element of a. */
  function Difference(a: seq<Elem>, b: seq<Elem>): seq<Elem> {
    if b == [] then [] else if a != [] && a[0] == b[0] then Difference(a[1..], b[1..])
      else [b[0]] + Difference(a, b[1..])
  }

  // --- Laws ---------------------------------------------------------------------------------

  lemma {:induction false} SumKeepsElements(a: seq<Elem>, b: seq<Elem>)
    ensures multiset(Sum(a, b)) == multiset(a) + multiset(b)
  {
    if a != [] && b != [] {
      if Less(a[0], b[0]) {
        SumKeepsElements(a[1..], b);
        assert a == [a[0]] + a[1..];
      } else {
        SumKeepsElements(a, b[1..]);
        assert b == [b[0]] + b[1..];
      }
    }
  }

  lemma SortedCons(x: Elem, s: seq<Elem>)
    requires Sorted(s) && forall y :: y in s ==> !Less(y, x)
    ensures Sorted([x] + s)
  {
    forall y | y in s ensures InOrder(x, y) { LessIsNotInOrder(x, y); }
  }

  lemma SortedTail(s: seq<Elem>)
    requires Sorted(s) && s != []
    ensures Sorted(s[1..]) && forall y :: y in s ==> !Less(y, s[0])
  {
  }

  /** The sum of sorted lists is sorted. */
  lemma {:induction false} SumSorted(a: seq<Elem>, b: seq<Elem>)
    requires Sorted(a) && Sorted(b)
    ensures Sorted(Sum(a, b))
  {
    if a != [] && b != [] {
      SortedTail(a);
      SortedTail(b);
      if Less(a[0], b[0]) {
        SumSorted(a[1..], b);
        SumMembers(a[1..], b);
        SortedCons(a[0], Sum(a[1..], b));
      } else {
        SumSorted(a, b[1..]);
        SumMembers(a, b[1..]);
        SortedCons(b[0], Sum(a, b[1..]));
      }
    }
  }

  /** Neighbours in order are a list in order. */
  lemma {:induction false} NeighboursSorted(s: seq<Elem>)
    requires forall i :: 0 <= i < |s| - 1 ==>
             s[i].row < s[i + 1].row || (s[i].row == s[i + 1].row && s[i].col <= s[i + 1].col)
    ensures Sorted(s)
  {
    if |s| >= 2 {
      var rest := s[1..];
      forall i | 0 <= i < |rest| - 1
        ensures rest[i].row < rest[i + 1].row || (rest[i].row == rest[i + 1].row && rest[i].col <= rest[i + 1].col)
      {
        assert rest[i] == s[i + 1] && rest[i + 1] == s[i + 2];
      }
      NeighboursSorted(rest);
      SortedFromTail(s);
    }
  }

  /** When neighbours of both lists are in row order, and in column order within a row, so are any two elements of
      the sum. */
  lemma SumInRowOrder(a: seq<Elem>, b: seq<Elem>)
    requires forall i :: 0 <= i < |a| - 1 ==>
             a[i].row < a[i + 1].row || (a[i].row == a[i + 1].row && a[i].col <= a[i + 1].col)
    requires forall i :: 0 <= i < |b| - 1 ==>
             b[i].row < b[i + 1].row || (b[i].row == b[i + 1].row && b[i].col <= b[i + 1].col)
    ensures var s := Sum(a, b);
            forall i, j :: 0 <= i < j < |s| ==> s[i].row < s[j].row || (s[i].row == s[j].row && s[i].col <= s[j].col)
  {
    hide Sum;
    NeighboursSorted(a);
    NeighboursSorted(b);
    SumSorted(a, b);
  }

  lemma SumMembers(a: seq<Elem>, b: seq<Elem>)
    ensures forall x :: x in Sum(a, b) <==> x in a || x in b
  {
    SumKeepsElements(a, b);
    forall x ensures x in Sum(a, b) <==> x in a || x in b {
      assert x in Sum(a, b) <==> x in multiset(Sum(a, b));
    }
  }

  /** `a` can be had from `b` by leaving elements out, whichever. */
  ghost predicate Subsequence(a: seq<Elem>, b: seq<Elem>) {
    a == [] || (b != [] && ((a[0] == b[0] && Subsequence(a[1..], b[1..])) || Subsequence(a, b[1..])))
  }

  lemma {:induction false} SubsequenceTail(a: seq<Elem>, b: seq<Elem>)
    requires Subsequence(a, b) && a != []
    ensures Subsequence(a[1..], b)
  {
    if a[0] == b[0] && Subsequence(a[1..], b[1..]) {
      SubsequenceSkip(a[1..], b);
    } else {
      SubsequenceTail(a, b[1..]);
    }
  }

  lemma SubsequenceSkip(a: seq<Elem>, b: seq<Elem>)
    requires b != [] && Subsequence(a, b[1..])
    ensures Subsequence(a, b)
  {
  }

  lemma {:induction false} DifferenceLength(a: seq<Elem>, b: seq<Elem>)
    ensures |b| - |a| <= |Difference(a, b)| <= |b|
  {
    if b != [] {
      if a != [] && a[0] == b[0] { DifferenceLength(a[1..], b[1..]); } else { DifferenceLength(a, b[1..]); }
    }
  }

  /** The one greedy pass drops all of a exactly when a is a subsequence of b. */
  lemma {:induction false} GreedyDropsAllIff(a: seq<Elem>, b: seq<Elem>)
    ensures Subsequence(a, b) <==> |Difference(a, b)| == |b| - |a|
  {
    if b == [] || a == [] {
      if b != [] { GreedyDropsAllIff(a, b[1..]); }
    } else if a[0] == b[0] {
      GreedyDropsAllIff(a[1..], b[1..]);
      if Subsequence(a, b[1..]) { SubsequenceTail(a, b[1..]); }
    } else {
      GreedyDropsAllIff(a, b[1..]);
      DifferenceLength(a, b[1..]);
    }
  }

  lemma {:induction false} SubsequenceOfBeginning(a: seq<Elem>, b: seq<Elem>, m: nat)
    requires b != [] && m <= |a|
    ensures a != [] && a[0] == b[0] && m > 0 ==>
              (Subsequence(a[..m], b) <==> Subsequence(a[1..][..m - 1], b[1..]))
    ensures a == [] || a[0] != b[0] || m == 0 ==> (Subsequence(a[..m], b) <==> Subsequence(a[..m], b[1..]))
  {
    if a != [] && a[0] == b[0] && m > 0 {
      assert a[..m][1..] == a[1..][..m - 1];
      if Subsequence(a[..m], b[1..]) { SubsequenceTail(a[..m], b[1..]); }
    }
  }

  /** What the pass drops is the longest beginning of a that is a subsequence of b. */
  lemma {:induction false} GreedyDropsLongest(a: seq<Elem>, b: seq<Elem>)
    ensures |Difference(a, b)| <= |b| <= |a| + |Difference(a, b)|
    ensures var m := |b| - |Difference(a, b)|;
            Subsequence(a[..m], b) && (m < |a| ==> !Subsequence(a[..m + 1], b))
  {
    DifferenceLength(a, b);
    if b != [] {
      var hit := a != [] && a[0] == b[0];
      var m := |b| - |Difference(a, b)|;
      GreedyDropsLongest(if hit then a[1..] else a, b[1..]);
      assert |Difference(a, b)| == if hit then |Difference(a[1..], b[1..])| else 1 + |Difference(a, b[1..])|;
      hide Difference, Subsequence;
      SubsequenceOfBeginning(a, b, m);
      if m < |a| { SubsequenceOfBeginning(a, b, m + 1); }
    }
  }

  /** The rest of b stays, in its order. */
  lemma {:induction false} DifferenceKeeps(a: seq<Elem>, b: seq<Elem>)
    ensures |Difference(a, b)| <= |b| <= |a| + |Difference(a, b)|
    ensures multiset(b) == multiset(a[..|b| - |Difference(a, b)|]) + multiset(Difference(a, b))
    ensures Subsequence(Difference(a, b), b)
  {
    DifferenceLength(a, b);
    if b != [] {
      assert b == [b[0]] + b[1..];
      if a != [] && a[0] == b[0] {
        DifferenceKeeps(a[1..], b[1..]);
        var m := |b| - |Difference(a, b)|;
        DifferenceLength(a[1..], b[1..]);
        assert a[..m] == [a[0]] + a[1..][..m - 1];
        SubsequenceSkip(Difference(a, b), b);
      } else {
        DifferenceKeeps(a, b[1..]);
        assert Difference(a, b)[1..] == Difference(a, b[1..]);
      }
    }
  }

  /** The pass decides on every element when it comes to it: nothing behind an element matters. */
  lemma {:induction false} DifferenceOfBeginning(a: seq<Elem>, b: seq<Elem>, k: nat)
    requires k <= |b|
    ensures Difference(a, b[..k]) <= Difference(a, b)
  {
    if k > 0 {
      assert b[..k][1..] == b[1..][..k - 1];
      DifferenceOfBeginning(if a != [] && a[0] == b[0] then a[1..] else a, b[1..], k - 1);
    }
  }

  lemma {:induction false} SumContains(a: seq<Elem>, b: seq<Elem>)
    ensures Subsequence(a, Sum(a, b)) && Subsequence(b, Sum(a, b))
  {
    if a == [] || b == [] {
      Whole(a);
      Whole(b);
    } else if Less(a[0], b[0]) {
      SumContains(a[1..], b);
      assert Sum(a, b)[1..] == Sum(a[1..], b);
    } else {
      SumContains(a, b[1..]);
      assert Sum(a, b)[1..] == Sum(a, b[1..]);
    }
  }

  lemma {:induction false} Whole(a: seq<Elem>)
    ensures Subsequence(a, a)
  {
    if a != [] { Whole(a[1..]); }
  }

  // --- Subtraction undoes addition ----------------------------------------------------------

  function Copies(x: Elem, k: nat): (r: seq<Elem>)
    ensures |r| == k && forall i :: 0 <= i < k ==> r[i] == x
  {
    seq(k, _ => x)
  }

  lemma {:induction false} DifferenceOfNothing(b: seq<Elem>)
    ensures Difference([], b) == b
  {
    if b != [] { DifferenceOfNothing(b[1..]); }
  }

  /** The pass over k copies of x and a, looking for a. */
  lemma {:induction false} DifferenceBehind(a: seq<Elem>, x: Elem, k: nat)
    ensures Difference(a, Copies(x, k) + a) == Copies(x, k)
    decreases |a|, k
  {
    var b := Copies(x, k) + a;
    if k == 0 {
      assert b == a;
      if a != [] {
        DifferenceBehind(a[1..], x, 0);
        assert Copies(x, 0) + a[1..] == a[1..];
      }
    } else if a != [] && a[0] == x {
      assert b[1..] == Copies(x, k) + a[1..];
      DifferenceBehind(a[1..], x, k);
    } else {
      assert b[1..] == Copies(x, k - 1) + a;
      DifferenceBehind(a, x, k - 1);
      assert [x] + Copies(x, k - 1) == Copies(x, k);
    }
  }

  /** The pass over a sum when it has already dropped k elements, equal to x, that the sum has not yet taken
      from a: it keeps k copies of x in their place. */
  lemma {:induction false} DifferenceAhead(rest: seq<Elem>, b: seq<Elem>, x: Elem, k: nat)
    requires Sorted(b) && (k > 0 ==> forall i :: 0 <= i < |b| ==> !Less(b[i], x))
    ensures Difference(rest, Sum(Copies(x, k) + rest, b)) == Copies(x, k) + b
    decreases |rest| + |b|, k, 1
  {
    var a := Copies(x, k) + rest;
    if a == [] {
      DifferenceOfNothing(b);
      assert Copies(x, k) + b == b;
    } else if b == [] {
      DifferenceBehind(rest, x, k);
    } else if Less(a[0], b[0]) {
      AheadTakesFirst(rest, b, x, k);
    } else {
      AheadTakesSecond(rest, b, x, k);
    }
  }

  /** Copies of an element slide past an equal one. */
  lemma CopiesSlide(x: Elem, k: nat, b: seq<Elem>)
    requires b != [] && b[0] == x
    ensures [x] + (Copies(x, k) + b[1..]) == Copies(x, k) + b && Copies(x, k + 1) + b[1..] == Copies(x, k) + b
  {
    assert [x] + Copies(x, k) == Copies(x, k) + [x] == Copies(x, k + 1);
    assert b == [x] + b[1..];
  }

  lemma NoCopies(x: Elem, b: seq<Elem>)
    ensures Copies(x, 0) + b == b
  {
  }

  lemma CopiesCons(x: Elem, k: nat, b: seq<Elem>)
    requires k > 0
    ensures [x] + (Copies(x, k - 1) + b) == Copies(x, k) + b
  {
    assert [x] + Copies(x, k - 1) == Copies(x, k);
  }

  lemma CopiesRest(x: Elem, k: nat, rest: seq<Elem>)
    requires k > 0
    ensures var a := Copies(x, k) + rest;
            a[0] == x && a[1..] == Copies(x, k - 1) + rest
            && (rest != [] && rest[0] == x ==> a[1..] == Copies(x, k) + rest[1..])
  {
    if rest != [] && rest[0] == x {
      assert rest == [x] + rest[1..];
      assert Copies(x, k - 1) + [x] == Copies(x, k);
    }
  }

  lemma DifferenceStep(a: seq<Elem>, y: Elem, rest: seq<Elem>)
    ensures Difference(a, [y] + rest) == if a != [] && a[0] == y then Difference(a[1..], rest)
            else [y] + Difference(a, rest)
  {
    assert ([y] + rest)[1..] == rest;
  }

  lemma SumStep(a: seq<Elem>, b: seq<Elem>)
    requires a != [] && b != []
    ensures Sum(a, b) == if Less(a[0], b[0]) then [a[0]] + Sum(a[1..], b) else [b[0]] + Sum(a, b[1..])
  {
  }

  lemma {:induction false} AheadTakesFirst(rest: seq<Elem>, b: seq<Elem>, x: Elem, k: nat)
    requires Sorted(b) && (k > 0 ==> forall i :: 0 <= i < |b| ==> !Less(b[i], x))
    requires b != [] && Copies(x, k) + rest != [] && Less((Copies(x, k) + rest)[0], b[0])
    ensures Difference(rest, Sum(Copies(x, k) + rest, b)) == Copies(x, k) + b
    decreases |rest| + |b|, k, 0
  {
    hide Sum, Difference, Sorted, Copies;
    var a := Copies(x, k) + rest;
    SumStep(a, b);
    DifferenceStep(rest, a[0], Sum(a[1..], b));
    if k == 0 {
      NoCopies(x, rest);
      NoCopies(x, rest[1..]);
      DifferenceAhead(rest[1..], b, x, 0);
    } else {
      CopiesRest(x, k, rest);
      if rest != [] && rest[0] == x {
        DifferenceAhead(rest[1..], b, x, k);
      } else {
        DifferenceAhead(rest, b, x, k - 1);
        CopiesCons(x, k, b);
      }
    }
  }

  lemma {:induction false} AheadTakesSecond(rest: seq<Elem>, b: seq<Elem>, x: Elem, k: nat)
    requires Sorted(b) && (k > 0 ==> forall i :: 0 <= i < |b| ==> !Less(b[i], x))
    requires b != [] && Copies(x, k) + rest != [] && !Less((Copies(x, k) + rest)[0], b[0])
    ensures Difference(rest, Sum(Copies(x, k) + rest, b)) == Copies(x, k) + b
    decreases |rest| + |b|, k, 0
  {
    hide Sum, Difference, Sorted, Copies;
    SortedTail(b);
    if k > 0 { CopiesRest(x, k, rest); } else { NoCopies(x, rest); }
    if rest != [] && rest[0] == b[0] {
      DifferenceAhead(rest[1..], b[1..], b[0], k + 1);
      SecondDropped(rest, b, x, k);
    } else {
      DifferenceAhead(rest, b[1..], x, k);
      SecondKept(rest, b, x, k);
    }
  }

  /** The sum takes b[0], which the pass drops for the equal rest[0]. */
  lemma SecondDropped(rest: seq<Elem>, b: seq<Elem>, x: Elem, k: nat)
    requires b != [] && rest != [] && rest[0] == b[0] && (k > 0 ==> x == b[0])
    requires !Less((Copies(x, k) + rest)[0], b[0])
    requires Difference(rest[1..], Sum(Copies(b[0], k + 1) + rest[1..], b[1..])) == Copies(b[0], k + 1) + b[1..]
    ensures Difference(rest, Sum(Copies(x, k) + rest, b)) == Copies(x, k) + b
  {
    hide Sum, Difference;
    SameCopies(x, b[0], k);
    hide Copies;
    var a := Copies(x, k) + rest;
    SumStep(a, b);
    DifferenceStep(rest, b[0], Sum(a, b[1..]));
    CopiesSlide(b[0], k, rest);
    CopiesSlide(b[0], k, b);
  }

  lemma SameCopies(x: Elem, y: Elem, k: nat)
    requires k > 0 ==> x == y
    ensures Copies(x, k) == Copies(y, k)
  {
  }

  /** The sum takes b[0] and the pass keeps it. */
  lemma SecondKept(rest: seq<Elem>, b: seq<Elem>, x: Elem, k: nat)
    requires b != [] && (rest == [] || rest[0] != b[0]) && (k > 0 ==> x == b[0])
    requires Copies(x, k) + rest != [] && !Less((Copies(x, k) + rest)[0], b[0])
    requires Difference(rest, Sum(Copies(x, k) + rest, b[1..])) == Copies(x, k) + b[1..]
    ensures Difference(rest, Sum(Copies(x, k) + rest, b)) == Copies(x, k) + b
  {
    hide Sum, Difference, Copies;
    var a := Copies(x, k) + rest;
    SumStep(a, b);
    DifferenceStep(rest, b[0], Sum(a, b[1..]));
    if k > 0 {
      CopiesSlide(x, k, b);
    } else {
      NoCopies(x, b);
      NoCopies(x, b[1..]);
      assert b == [b[0]] + b[1..];
    }
  }

  /** Subtracting any list from its sum with a sorted list gives the sorted list back, element by element. */
  lemma SubtractionUndoesAddition(a: seq<Elem>, b: seq<Elem>)
    requires Sorted(b)
    ensures Difference(a, Sum(a, b)) == b
  {
    DifferenceAhead(a, b, Elem(0, 0), 0);
    assert Copies(Elem(0, 0), 0) + a == a && Copies(Elem(0, 0), 0) + b == b;
  }

  lemma SortedFromTail(s: seq<Elem>)
    requires |s| >= 2 && Sorted(s[1..]) && !Less(s[1], s[0])
    ensures Sorted(s)
  {
    forall i, j | 0 <= i < j < |s| ensures InOrder(s[i], s[j]) {
      assert s[j] == s[1..][j - 1];
      if i > 0 { assert s[i] == s[1..][i - 1]; }
    }
  }

  /** The element before the first descent of an unsorted list breaks the law. */
  lemma {:induction false} UnsortedWitness(b: seq<Elem>) returns (p: Elem)
    requires !Sorted(b)
    ensures b != [] && !Less(p, b[0]) && Difference([p], Sum([p], b)) != b
  {
    if Less(b[1], b[0]) {
      p := b[0];
      DescentBreaks(b);
    } else {
      if Sorted(b[1..]) { SortedFromTail(b); }
      p := UnsortedWitness(b[1..]);
      LaterBreak(b, p);
    }
  }

  lemma DescentBreaks(b: seq<Elem>)
    requires |b| >= 2 && Less(b[1], b[0])
    ensures Difference([b[0]], Sum([b[0]], b)) != b
  {
    var p := b[0];
    SumStep([p], b);
    DifferenceStep([p], p, Sum([p], b[1..]));
    assert [p][1..] == [];
    DifferenceOfNothing(Sum([p], b[1..]));
    SumStep([p], b[1..]);
  }

  lemma LaterBreak(b: seq<Elem>, p: Elem)
    requires |b| >= 2 && !Less(b[1], b[0]) && !Less(p, b[1]) && Difference([p], Sum([p], b[1..])) != b[1..]
    ensures Difference([p], Sum([p], b)) != b
  {
    hide Sum, Difference;
    assert [p][1..] == [] && b == [b[0]] + b[1..];
    SumStep([p], b);
    DifferenceStep([p], b[0], Sum([p], b[1..]));
    if b[0] == p {
      SumStep([p], b[1..]);
      DifferenceStep([p], p, Sum([p], b[1..][1..]));
      DifferenceOfNothing(Sum([p], b[1..]));
      DifferenceOfNothing(Sum([p], b[1..][1..]));
    }
  }

  /** Subtraction undoes the addition of every list exactly to the sorted lists. */
  lemma UndoesEveryAdditionIffSorted(b: seq<Elem>)
    ensures Sorted(b) <==> forall a :: Difference(a, Sum(a, b)) == b
  {
    if Sorted(b) {
      forall a ensures Difference(a, Sum(a, b)) == b { SubtractionUndoesAddition(a, b); }
    } else {
      var p := UnsortedWitness(b);
      assert Difference([p], Sum([p], b)) != b;
    }
  }

  // --- The matrices -------------------------------------------------------------------------

  /** A growing list in a buffer of fixed capacity. */
  class CooMatrix {
    var nnz: nat
    const data: array<Elem>

    ghost predicate Valid()
      reads this
    {
      nnz <= data.Length
    }

    ghost function Contents(): (s: seq<Elem>)
      requires Valid()
      reads this, data
    {
      data[..nnz]
    }

    constructor (capacity: nat)
      ensures Valid() && Contents() == [] && data.Length == capacity && fresh(data)
    {
      nnz := 0;
      data := new Elem[capacity](_ => Elem(0, 0));
    }

    /** Appends an element, or fails without a change when the buffer is full. */
    method Insert(row: int, col: int) returns (st: Status)
      requires Valid()
      modifies this`nnz, data
      ensures Valid()
      ensures st == Err <==> |old(Contents())| == data.Length
      ensures Contents() == if st == Ok then old(Contents()) + [Elem(row, col)] else old(Contents())
    {
      if nnz >= data.Length {
        return Err;
      }
      data[nnz] := Elem(row, col);
      nnz := nnz + 1;
      return Ok;
    }
  }

  /** The sum from positions i and j on, one element further. */
  lemma SumFrom(x: seq<Elem>, y: seq<Elem>, i: nat, j: nat)
    requires i <= |x| && j <= |y|
    ensures i == |x| && j == |y| ==> Sum(x[i..], y[j..]) == []
    ensures i < |x| && (j == |y| || Less(x[i], y[j])) ==> Sum(x[i..], y[j..]) == [x[i]] + Sum(x[i + 1..], y[j..])
    ensures j < |y| && (i == |x| || !Less(x[i], y[j])) ==> Sum(x[i..], y[j..]) == [y[j]] + Sum(x[i..], y[j + 1..])
  {
    if i < |x| { assert x[i..][1..] == x[i + 1..]; }
    if j < |y| { assert y[j..][1..] == y[j + 1..]; }
    if i < |x| && j == |y| { assert x[i..] == [x[i]] + x[i + 1..]; }
    if j < |y| && i == |x| { assert y[j..] == [y[j]] + y[j + 1..]; }
  }

  /** How far an addition has come: `done` holds the sum up to positions i and j. */
  ghost predicate Added(done: seq<Elem>, x: seq<Elem>, y: seq<Elem>, i: nat, j: nat) {
    i <= |x| && j <= |y| && |done| == i + j && done + Sum(x[i..], y[j..]) == Sum(x, y)
  }

  lemma AddedFirst(done: seq<Elem>, x: seq<Elem>, y: seq<Elem>, i: nat, j: nat)
    requires Added(done, x, y, i, j) && i < |x| && (j == |y| || Less(x[i], y[j]))
    ensures Added(done + [x[i]], x, y, i + 1, j)
  {
    hide Sum;
    SumFrom(x, y, i, j);
    assert done + ([x[i]] + Sum(x[i + 1..], y[j..])) == (done + [x[i]]) + Sum(x[i + 1..], y[j..]);
  }

  lemma AddedSecond(done: seq<Elem>, x: seq<Elem>, y: seq<Elem>, i: nat, j: nat)
    requires Added(done, x, y, i, j) && j < |y| && (i == |x| || !Less(x[i], y[j]))
    ensures Added(done + [y[j]], x, y, i, j + 1)
  {
    hide Sum;
    SumFrom(x, y, i, j);
    assert done + ([y[j]] + Sum(x[i..], y[j + 1..])) == (done + [y[j]]) + Sum(x[i..], y[j + 1..]);
  }

  /** As much of a list as a buffer holds. */
  ghost function Kept(s: seq<Elem>, capacity: nat): seq<Elem> {
    if |s| <= capacity then s else s[..capacity]
  }

  lemma KeptNext(s: seq<Elem>, x: Elem, capacity: nat)
    ensures Kept(s + [x], capacity) == if |Kept(s, capacity)| < capacity then Kept(s, capacity) + [x]
            else Kept(s, capacity)
  {
  }

  /** The ordered sum of two matrices in a buffer whose capacity is the 32-bit sum of theirs: when that wraps
      around, what does not fit is left out. */
  method Add(a: CooMatrix, b: CooMatrix) returns (res: CooMatrix)
    requires a.Valid() && b.Valid() && a.data.Length < U32_LIMIT && b.data.Length < U32_LIMIT
    ensures fresh(res) && fresh(res.data) && res.Valid()
    ensures res.data.Length == Wrap(b.data.Length + a.data.Length)
    ensures res.Contents() == Kept(Sum(a.Contents(), b.Contents()), res.data.Length)
    ensures a.data.Length + b.data.Length < U32_LIMIT ==> res.Contents() == Sum(a.Contents(), b.Contents())
    ensures Sorted(a.Contents()) && Sorted(b.Contents()) ==>
              forall i, j :: 0 <= i < j < res.nnz ==>
                res.data[i].row < res.data[j].row || (res.data[i].row == res.data[j].row
                                                      && res.data[i].col <= res.data[j].col)
  {
    hide Added, Sum, Kept, Wrap;
    ghost var x, y := a.Contents(), b.Contents();
    res := new CooMatrix(Wrap(b.data.Length + a.data.Length));
    var i, j := 0, 0;
    ghost var done := [];
    AddedNothing(x, y, res.data.Length);
    while i < a.nnz || j < b.nnz
      invariant i <= a.nnz && j <= b.nnz && Added(done, x, y, i, j)
      invariant Holding(res, done) && res.data.Length == Wrap(b.data.Length + a.data.Length) && fresh(res)
                && fresh(res.data)
      decreases a.nnz + b.nnz - i - j
    {
      if i < a.nnz && j < b.nnz {
        if a.data[i].row < b.data[j].row {
          done := Append(res, x, y, done, i, j, a.data[i], true);
          i := i + 1;
        } else if a.data[i].row == b.data[j].row && a.data[i].col < b.data[j].col {
          done := Append(res, x, y, done, i, j, a.data[i], true);
          i := i + 1;
        } else {
          done := Append(res, x, y, done, i, j, b.data[j], false);
          j := j + 1;
        }
      } else if j >= b.nnz {
        while i < a.nnz
          invariant i <= a.nnz && Added(done, x, y, i, j)
          invariant Holding(res, done)
        {
          done := Append(res, x, y, done, i, j, a.data[i], true);
          i := i + 1;
        }
      } else {
        while j < b.nnz
          invariant j <= b.nnz && Added(done, x, y, i, j)
          invariant Holding(res, done)
        {
          done := Append(res, x, y, done, i, j, b.data[j], false);
          j := j + 1;
        }
      }
    }
    AddedAll(done, x, y, i, j);
    if Sorted(x) && Sorted(y) { KeptSorted(x, y, res.data.Length, res.Contents()); }
    if a.data.Length + b.data.Length < U32_LIMIT { SumFits(x, y, a.data.Length, b.data.Length); }
  }

  lemma KeptSorted(x: seq<Elem>, y: seq<Elem>, capacity: nat, kept: seq<Elem>)
    requires Sorted(x) && Sorted(y) && kept == Kept(Sum(x, y), capacity)
    ensures forall i, j :: 0 <= i < j < |kept| ==>
              kept[i].row < kept[j].row || (kept[i].row == kept[j].row && kept[i].col <= kept[j].col)
  {
    hide Sum;
    SumSorted(x, y);
  }

  /** The matrix holds as much of a list as it has room for. */
  ghost predicate Holding(m: CooMatrix, done: seq<Elem>)
    reads m, m.data
  {
    m.Valid() && m.Contents() == Kept(done, m.data.Length)
  }

  /** One element of an addition goes into the result, or is lost when the result is full. */
  method Append(res: CooMatrix, ghost x: seq<Elem>, ghost y: seq<Elem>, ghost done: seq<Elem>,
                ghost i: nat, ghost j: nat, e: Elem, ghost first: bool)
    returns (ghost done': seq<Elem>)
    requires Holding(res, done) && Added(done, x, y, i, j) && i <= |x| && j <= |y|
    requires if first then i < |x| && e == x[i] && (j == |y| || Less(x[i], y[j]))
             else j < |y| && e == y[j] && (i == |x| || !Less(x[i], y[j]))
    modifies res`nnz, res.data
    ensures Holding(res, done') && if first then Added(done', x, y, i + 1, j) else Added(done', x, y, i, j + 1)
  {
    hide Added, Sum, Kept;
    KeptNext(done, e, res.data.Length);
    var _ := res.Insert(e.row, e.col);
    if first { AddedFirst(done, x, y, i, j); } else { AddedSecond(done, x, y, i, j); }
    done' := done + [e];
  }

  lemma SumFits(x: seq<Elem>, y: seq<Elem>, n: nat, m: nat)
    requires |x| <= n && |y| <= m && n + m < U32_LIMIT
    ensures Kept(Sum(x, y), Wrap(m + n)) == Sum(x, y)
  {
    hide Sum;
    SumKeepsElements(x, y);
    assert |multiset(Sum(x, y))| == |x| + |y|;
  }

  lemma AddedNothing(x: seq<Elem>, y: seq<Elem>, capacity: nat)
    ensures Added([], x, y, 0, 0) && Kept([], capacity) == []
  {
    assert x[0..] == x && y[0..] == y;
  }

  lemma AddedAll(done: seq<Elem>, x: seq<Elem>, y: seq<Elem>, i: nat, j: nat)
    requires Added(done, x, y, i, j) && i == |x| && j == |y|
    ensures done == Sum(x, y)
  {
    SumFrom(x, y, i, j);
  }

  /** How far a subtraction has come: `done` holds what the pass kept up to position j of y. */
  ghost predicate Subtracted(done: seq<Elem>, x: seq<Elem>, y: seq<Elem>, i: nat, j: nat) {
    i <= |x| && j <= |y| && |done| <= j && done + Difference(x[i..], y[j..]) == Difference(x, y)
  }

  lemma SubtractedNext(done: seq<Elem>, x: seq<Elem>, y: seq<Elem>, i: nat, j: nat)
    requires Subtracted(done, x, y, i, j) && j < |y|
    ensures if i < |x| && x[i] == y[j] then Subtracted(done, x, y, i + 1, j + 1)
            else Subtracted(done + [y[j]], x, y, i, j + 1)
  {
    hide Difference;
    assert y[j..] == [y[j]] + y[j + 1..];
    DifferenceStep(x[i..], y[j], y[j + 1..]);
    if i < |x| && x[i] == y[j] {
      assert x[i..][1..] == x[i + 1..];
    } else {
      assert done + ([y[j]] + Difference(x[i..], y[j + 1..])) == (done + [y[j]]) + Difference(x[i..], y[j + 1..]);
    }
  }

  lemma SubtractedEnds(done: seq<Elem>, x: seq<Elem>, y: seq<Elem>, i: nat, j: nat)
    ensures Subtracted([], x, y, 0, 0)
    ensures Subtracted(done, x, y, i, j) && j == |y| ==> done == Difference(x, y)
  {
    assert x[0..] == x && y[0..] == y && y[|y|..] == [];
  }

  /** The elements of b that one pass along a does not drop. */
  method Sub(a: CooMatrix, b: CooMatrix) returns (res: CooMatrix)
    requires a.Valid() && b.Valid()
    ensures fresh(res) && fresh(res.data) && res.Valid()
    ensures res.Contents() == Difference(a.Contents(), b.Contents())
  {
    hide Subtracted, Difference;
    ghost var x, y := a.Contents(), b.Contents();
    res := new CooMatrix(b.data.Length);
    var i := 0;
    SubtractedEnds(res.Contents(), x, y, 0, 0);
    for j := 0 to b.nnz
      invariant i <= a.nnz && res.Valid() && fresh(res) && fresh(res.data)
      invariant res.nnz <= j && res.data.Length == b.data.Length && Subtracted(res.Contents(), x, y, i, j)
    {
      SubtractedNext(res.Contents(), x, y, i, j);
      if i < a.nnz && a.data[i].row == b.data[j].row && a.data[i].col == b.data[j].col {
        i := i + 1;
        continue;
      }
      var _ := res.Insert(b.data[j].row, b.data[j].col);
    }
    SubtractedEnds(res.Contents(), x, y, i, b.nnz);
  }

  // --- Merging ------------------------------------------------------------------------------

  ghost function Lists(ms: seq<CooMatrix?>): (r: seq<seq<Elem>>)
    requires forall m :: m in ms && m != null ==> m.Valid()
    reads set m | m in ms && m != null :: m, set m | m in ms && m != null :: m.data
    ensures |r| == |ms| && forall i :: 0 <= i < |r| ==> r[i] == if ms[i] == null then [] else ms[i].Contents()
  {
    if ms == [] then [] else
      var n := |ms| - 1;
      assert ms[n] in ms && forall m :: m in ms[..n] ==> m in ms;
      Lists(ms[..n]) + [if ms[n] == null then [] else ms[n].Contents()]
  }

  function Joined(lists: seq<seq<Elem>>): seq<Elem> {
    if lists == [] then [] else Joined(lists[..|lists| - 1]) + lists[|lists| - 1]
  }

  /** Element k of list i lies behind all elements of the lists before it. */
  lemma {:induction false} JoinedAt(lists: seq<seq<Elem>>, i: nat, k: nat)
    requires i < |lists| && k < |lists[i]|
    ensures |Joined(lists[..i])| + k < |Joined(lists)| && Joined(lists)[|Joined(lists[..i])| + k] == lists[i][k]
  {
    var n := |lists| - 1;
    if i < n {
      assert lists[..n][..i] == lists[..i];
      JoinedAt(lists[..n], i, k);
    }
  }

  /** The number of elements of all matrices that are there. */
  method TotalSize(ms: seq<CooMatrix?>) returns (capacity: nat)
    requires forall m :: m in ms && m != null ==> m.Valid()
    ensures capacity == |Joined(Lists(ms))|
  {
    hide Joined;
    ghost var lists := Lists(ms);
    capacity := 0;
    assert |Joined(lists[..0])| == 0 by { JoinedNothing(lists[..0]); }
    for i := 0 to |ms|
      invariant capacity == |Joined(lists[..i])|
    {
      JoinedNext(lists, i);
      if ms[i] != null {
        assert ms[i] in ms && lists[i] == ms[i].Contents();
        capacity := capacity + ms[i].nnz;
      }
    }
    assert lists[..|ms|] == lists;
  }

  /** The lists of the matrices that are there, one after the other, in a buffer of just their size; no matrix
      at all gives none. */
  method Merge(ms: seq<CooMatrix?>) returns (res: CooMatrix?)
    requires forall m :: m in ms && m != null ==> m.Valid()
    requires ms != [] ==> ms[0] != null
    ensures res == null <==> ms == []
    ensures res != null ==> fresh(res) && fresh(res.data) && res.Valid()
    ensures res != null ==> res.Contents() == Joined(Lists(ms)) && res.data.Length == res.nnz
  {
    hide Joined;
    if |ms| == 0 {
      return null;
    }
    ghost var lists := Lists(ms);
    var capacity := TotalSize(ms);
    var m := new CooMatrix(capacity);
    JoinedNothing(lists[..0]);
    for i := 0 to |ms|
      invariant m.Valid() && m.Contents() == Joined(lists[..i]) && m.data.Length == capacity
    {
      JoinedNext(lists, i);
      JoinedGrows(lists, i + 1, |ms|);
      assert lists[..|ms|] == lists;
      if ms[i] != null {
        assert ms[i] in ms && lists[i] == ms[i].Contents();
        if ms[i].nnz > 0 {
          CopyTo(ms[i], m);
        }
      }
    }
    assert lists[..|ms|] == lists;
    res := m;
  }

  lemma JoinedNothing(lists: seq<seq<Elem>>)
    requires lists == []
    ensures Joined(lists) == []
  {
  }

  lemma {:induction false} JoinedGrows(lists: seq<seq<Elem>>, i: nat, n: nat)
    requires i <= n <= |lists|
    ensures |Joined(lists[..i])| <= |Joined(lists[..n])|
  {
    if i < n {
      JoinedGrows(lists, i, n - 1);
      assert lists[..n][..n - 1] == lists[..n - 1];
    }
  }

  lemma JoinedNext(lists: seq<seq<Elem>>, i: nat)
    requires i < |lists|
    ensures Joined(lists[..i + 1]) == Joined(lists[..i]) + lists[i]
  {
    assert lists[..i + 1][..i] == lists[..i];
  }

  /** Copies a matrix behind the elements of another. */
  method CopyTo(src: CooMatrix, dst: CooMatrix)
    requires src.Valid() && dst.Valid() && src != dst && src.data != dst.data && dst.nnz + src.nnz <= dst.data.Length
    modifies dst`nnz, dst.data
    ensures dst.Valid() && dst.Contents() == old(dst.Contents()) + src.Contents()
  {
    var at := dst.nnz;
    forall k | 0 <= k < src.nnz {
      dst.data[at + k] := src.data[k];
    }
    dst.nnz := at + src.nnz;
  }
}
