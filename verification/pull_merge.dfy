/** The host side of a lookup's answer: fetching the DPUs' result lists and scattering them by key_id. */
module PullMerge {
  import opened Tasklets
  import opened Routing

  /** Results that fit a pull buffer of 128 KB behind its metadata and its list header. */
  const COO_RESULTS_CAPACITY: nat := (131072 - 32 - 16) / 16

  /** That many results, of 16 bytes each behind 32 bytes of metadata and a header of 16, and no more fit 131072
      bytes. */
  lemma CapacityInBytes(n: nat)
    ensures n <= COO_RESULTS_CAPACITY <==> 32 + 16 + 16 * n <= 131072
  {
  }

  /** A result list: the first `nnz` elements of `data` count. */
  datatype Coo = Coo(nnz: nat, data: seq<Res>)

  /** What one DPU holds for the host: the metadata's result_size and the list. */
  datatype DpuOutput = DpuOutput(resultSize: nat, coo: Coo)

  function MaxOf(sizes: seq<nat>): (m: nat)
    ensures forall i :: 0 <= i < |sizes| ==> sizes[i] <= m
    ensures m == 0 || m in sizes
  {
    if sizes == [] then 0 else
      var m := MaxOf(sizes[..|sizes| - 1]);
      if m < sizes[|sizes| - 1] then sizes[|sizes| - 1] else m
  }

  /** A list as it arrives when room for m elements is transferred. */
  function Received(coo: Coo, m: nat): Coo {
    coo.(data := if |coo.data| <= m then coo.data else coo.data[..m])
  }

  function Sizes(outs: seq<DpuOutput>): (r: seq<nat>)
    ensures |r| == |outs| && forall i :: 0 <= i < |r| ==> r[i] == outs[i].resultSize
  {
    seq(|outs|, i requires 0 <= i < |outs| => outs[i].resultSize)
  }

  /** The result lists in the host's buffers after a pull: everything when the longest list fits,
      and otherwise whatever was there before. */
  function Pulled(before: seq<Coo>, outs: seq<DpuOutput>): (r: seq<Coo>)
    requires |before| == |outs|
    ensures |r| == |outs|
  {
    if COO_RESULTS_CAPACITY < MaxOf(Sizes(outs)) then before
    else seq(|outs|, i requires 0 <= i < |outs| => Received(outs[i].coo, MaxOf(Sizes(outs))))
  }

  predicate AllFit(outs: seq<DpuOutput>) {
    forall d :: 0 <= d < |outs| ==> outs[d].resultSize <= COO_RESULTS_CAPACITY
  }

  /** The counted part of a list. */
  function Counted(coo: Coo): seq<Res> {
    if coo.nnz <= |coo.data| then coo.data[..coo.nnz] else coo.data
  }

  ghost predicate Consistent(outs: seq<DpuOutput>) {
    forall d :: 0 <= d < |outs| ==> outs[d].coo.nnz == outs[d].resultSize <= |outs[d].coo.data|
  }

  /** A pull delivers the DPUs' results, whatever was in the buffers before, exactly when every DPU's list
      fits a pull buffer. */
  lemma PullDeliversIffAllFit(outs: seq<DpuOutput>)
    requires Consistent(outs)
    ensures AllFit(outs) <==>
            forall before: seq<Coo> :: |before| == |outs| ==>
              forall d :: 0 <= d < |outs| ==> Counted(Pulled(before, outs)[d]) == Counted(outs[d].coo)
  {
    if AllFit(outs) {
      forall before: seq<Coo>, d | |before| == |outs| && 0 <= d < |outs|
        ensures Counted(Pulled(before, outs)[d]) == Counted(outs[d].coo)
      {
        assert Sizes(outs)[d] <= MaxOf(Sizes(outs));
      }
    } else {
      var d :| 0 <= d < |outs| && outs[d].resultSize > COO_RESULTS_CAPACITY;
      assert Sizes(outs)[d] > COO_RESULTS_CAPACITY;
      var stale := seq(|outs|, i => Coo(0, []));
      assert Counted(Pulled(stale, outs)[d]) == [] && |Counted(outs[d].coo)| > 0;
    }
  }

  /** The same in bytes: a pull delivers exactly when metadata, header and every DPU's results fit a buffer. */
  lemma PullDeliversIffBytesFit(outs: seq<DpuOutput>)
    requires Consistent(outs)
    ensures (forall d :: 0 <= d < |outs| ==> 32 + 16 + 16 * outs[d].resultSize <= 131072) <==>
            forall before: seq<Coo> :: |before| == |outs| ==>
              forall d :: 0 <= d < |outs| ==> Counted(Pulled(before, outs)[d]) == Counted(outs[d].coo)
  {
    hide Counted, Pulled, Consistent;
    PullDeliversIffAllFit(outs);
    BytesAndResults(outs);
  }

  lemma BytesAndResults(outs: seq<DpuOutput>)
    ensures AllFit(outs) <==> forall d :: 0 <= d < |outs| ==> 32 + 16 + 16 * outs[d].resultSize <= 131072
  {
  }

  lemma PulledIntact(before: seq<Coo>, outs: seq<DpuOutput>, d: nat)
    requires Consistent(outs) && AllFit(outs) && |before| == |outs| && d < |outs|
    ensures Pulled(before, outs)[d].nnz <= |Pulled(before, outs)[d].data|
    ensures Counted(Pulled(before, outs)[d]) == outs[d].coo.data[..outs[d].coo.nnz]
  {
    assert Sizes(outs)[d] <= MaxOf(Sizes(outs));
  }

  lemma PulledInBytes(before: seq<Coo>, outs: seq<DpuOutput>)
    requires |before| == |outs|
    ensures (exists d :: 0 <= d < |outs| && 32 + 16 + 16 * outs[d].resultSize > 131072) ==>
            Pulled(before, outs) == before
    ensures Consistent(outs) && (forall d :: 0 <= d < |outs| ==> 32 + 16 + 16 * outs[d].resultSize <= 131072) ==>
              forall d :: 0 <= d < |outs| ==>
                outs[d].coo.nnz <= |outs[d].coo.data|
                && Counted(Pulled(before, outs)[d]) == outs[d].coo.data[..outs[d].coo.nnz]
  {
    hide Counted, Pulled;
    BytesAndResults(outs);
    if AllFit(outs) && Consistent(outs) {
      forall d | 0 <= d < |outs|
        ensures Counted(Pulled(before, outs)[d]) == outs[d].coo.data[..outs[d].coo.nnz]
      {
        PulledIntact(before, outs, d);
      }
    }
    if d :| 0 <= d < |outs| && 32 + 16 + 16 * outs[d].resultSize > 131072 {
      TooLongKeeps(before, outs, d);
    }
  }

  /** When the lists fit, every buffer gets the count and the first results of its DPU: as many as the longest list
      has, or all there are, and never more than fit a buffer. */
  lemma TransferredPart(before: seq<Coo>, outs: seq<DpuOutput>, d: nat)
    requires |before| == |outs| && d < |outs|
    requires forall e :: 0 <= e < |outs| ==> 32 + 16 + 16 * outs[e].resultSize <= 131072
    ensures var r := Pulled(before, outs)[d];
            && r.nnz == outs[d].coo.nnz && r.data <= outs[d].coo.data
            && (exists e :: 0 <= e < |outs| && |r.data| <= outs[e].resultSize)
            && (r.data == outs[d].coo.data || forall e :: 0 <= e < |outs| ==> outs[e].resultSize <= |r.data|)
            && 32 + 16 + 16 * |r.data| <= 131072
  {
    BytesAndResults(outs);
    var sizes := Sizes(outs);
    assert sizes[d] <= MaxOf(sizes);
    var e :| 0 <= e < |outs| && MaxOf(sizes) == outs[e].resultSize;
  }

  lemma PulledFit(before: seq<Coo>, outs: seq<DpuOutput>)
    requires |before| == |outs|
    ensures (forall d :: 0 <= d < |outs| ==> 32 + 16 + 16 * outs[d].resultSize <= 131072) ==>
              forall d :: 0 <= d < |outs| ==>
                Pulled(before, outs)[d].data <= outs[d].coo.data
                && 32 + 16 + 16 * |Pulled(before, outs)[d].data| <= 131072
  {
    hide Pulled;
    if forall d :: 0 <= d < |outs| ==> 32 + 16 + 16 * outs[d].resultSize <= 131072 {
      forall d | 0 <= d < |outs|
        ensures Pulled(before, outs)[d].data <= outs[d].coo.data
                && 32 + 16 + 16 * |Pulled(before, outs)[d].data| <= 131072
      {
        TransferredPart(before, outs, d);
      }
    }
  }

  lemma TooLongKeeps(before: seq<Coo>, outs: seq<DpuOutput>, d: nat)
    requires |before| == |outs| && d < |outs| && outs[d].resultSize > COO_RESULTS_CAPACITY
    ensures Pulled(before, outs) == before
  {
    assert Sizes(outs)[d] <= MaxOf(Sizes(outs));
  }

  // --- Merging ------------------------------------------------------------------------------

  ghost predicate RowsBelow(rs: seq<Res>, n: nat) {
    forall j :: 0 <= j < |rs| ==> rs[j].row < n
  }

  /** Writing results one after the other into the value array. */
  function Scatter(vals: seq<nat>, rs: seq<Res>): (r: seq<nat>)
    requires forall j :: 0 <= j < |rs| ==> rs[j].row < |vals|
    ensures |r| == |vals|
    decreases |rs|
  {
    if rs == [] then vals else
      var n := |rs| - 1;
      Scatter(vals, rs[..n])[rs[n].row := rs[n].val]
  }

  lemma ScatterAppend(vals: seq<nat>, rs: seq<Res>, r: Res)
    requires RowsBelow(rs, |vals|) && r.row < |vals|
    ensures RowsBelow(rs + [r], |vals|) && Scatter(vals, rs + [r]) == Scatter(vals, rs)[r.row := r.val]
  {
    assert (rs + [r])[..|rs|] == rs;
  }

  lemma {:induction false} ScatterConcat(vals: seq<nat>, a: seq<Res>, b: seq<Res>)
    requires RowsBelow(a, |vals|) && RowsBelow(b, |vals|)
    ensures RowsBelow(a + b, |vals|) && Scatter(vals, a + b) == Scatter(Scatter(vals, a), b)
    decreases |b|
  {
    if b == [] {
      assert a + b == a;
    } else {
      var n := |b| - 1;
      ScatterConcat(vals, a, b[..n]);
      assert a + b == (a + b[..n]) + [b[n]];
      ScatterAppend(vals, a + b[..n], b[n]);
    }
  }

  /** A row answered with one value, however often, holds that value; a row nobody answered is untouched. */
  lemma {:induction false} ScatterAt(vals: seq<nat>, rs: seq<Res>, i: nat, v: nat)
    requires i < |vals| && forall j :: 0 <= j < |rs| ==> rs[j].row < |vals|
    requires forall j :: 0 <= j < |rs| && rs[j].row == i ==> rs[j].val == v
    ensures Scatter(vals, rs)[i] == if exists j :: 0 <= j < |rs| && rs[j].row == i then v else vals[i]
    decreases |rs|
  {
    if rs != [] {
      var n := |rs| - 1;
      ScatterAt(vals, rs[..n], i, v);
      if rs[n].row != i {
        assert forall j :: 0 <= j < n ==> rs[..n][j] == rs[j];
      }
    }
  }

  /** The results of the first n DPUs in the order the host visits them. */
  function AllResults(coos: seq<Coo>, n: nat): seq<Res>
    requires n <= |coos|
  {
    if n == 0 then [] else AllResults(coos, n - 1) + Counted(coos[n - 1])
  }

  lemma {:induction false} AllResultsMembers(coos: seq<Coo>, n: nat, r: Res)
    requires n <= |coos|
    ensures r in AllResults(coos, n) <==> exists d :: 0 <= d < n && r in Counted(coos[d])
  {
    if n > 0 { AllResultsMembers(coos, n - 1, r); }
  }

  /** In DPU order: the k-th result of DPU d lies behind all results of the DPUs before it. */
  lemma {:induction false} AllResultsAt(coos: seq<Coo>, n: nat, d: nat, k: nat)
    requires d < n <= |coos| && k < |Counted(coos[d])|
    ensures |AllResults(coos, d)| + k < |AllResults(coos, n)|
    ensures AllResults(coos, n)[|AllResults(coos, d)| + k] == Counted(coos[d])[k]
  {
    hide Counted;
    if d < n - 1 { AllResultsAt(coos, n - 1, d, k); }
  }

  /** The last result for a row decides. */
  lemma {:induction false} ScatterLast(vals: seq<nat>, rs: seq<Res>, j: nat)
    requires RowsBelow(rs, |vals|) && j < |rs| && forall k :: j < k < |rs| ==> rs[k].row != rs[j].row
    ensures Scatter(vals, rs)[rs[j].row] == rs[j].val
    decreases |rs|
  {
    var n := |rs| - 1;
    if j < n { ScatterLast(vals, rs[..n], j); }
  }

  /** The pull buffers of a set of DPUs. */
  class PullInfo {
    const sizes: array<nat>
    const results: array<Coo>

    ghost predicate Valid() {
      sizes.Length == NR_DPUS && results.Length == NR_DPUS && sizes != results as object
    }

    constructor ()
      ensures Valid() && fresh(sizes) && fresh(results)
    {
      sizes := new nat[NR_DPUS](_ => 0);
      results := new Coo[NR_DPUS](_ => Coo(0, []));
    }

    /** Copies every DPU's metadata. */
    method PullMetadatas(outs: seq<DpuOutput>)
      requires Valid() && |outs| == NR_DPUS
      modifies sizes
      ensures sizes[..] == Sizes(outs)
    {
      for i := 0 to NR_DPUS
        invariant forall d :: 0 <= d < i ==> sizes[d] == outs[d].resultSize
      {
        sizes[i] := outs[i].resultSize;
      }
    }

    /** Fetches the lists when the longest one fits, and otherwise nothing. */
    method PullResults(outs: seq<DpuOutput>)
      requires Valid() && |outs| == NR_DPUS && sizes[..] == Sizes(outs)
      modifies results
      ensures results[..] == Pulled(old(results[..]), outs)
      ensures (exists d :: 0 <= d < NR_DPUS && 32 + 16 + 16 * outs[d].resultSize > 131072) ==>
                results[..] == old(results[..])
      ensures Consistent(outs) && (forall d :: 0 <= d < NR_DPUS ==> 32 + 16 + 16 * outs[d].resultSize <= 131072) ==>
                forall d :: 0 <= d < NR_DPUS ==> Counted(results[d]) == outs[d].coo.data[..outs[d].coo.nnz]
      ensures (forall d :: 0 <= d < NR_DPUS ==> 32 + 16 + 16 * outs[d].resultSize <= 131072) ==>
                forall d :: 0 <= d < NR_DPUS ==>
                  results[d].data <= outs[d].coo.data && 32 + 16 + 16 * |results[d].data| <= 131072
    {
      hide Counted, Consistent;
      PulledInBytes(results[..], outs);
      PulledFit(results[..], outs);
      var maxCapacity := 0;
      for i := 0 to NR_DPUS
        invariant maxCapacity == MaxOf(sizes[..i])
      {
        assert sizes[..i + 1][..i] == sizes[..i];
        if maxCapacity < sizes[i] {
          maxCapacity := sizes[i];
        }
      }
      assert sizes[..NR_DPUS] == sizes[..];
      if COO_RESULTS_CAPACITY < maxCapacity {
        return;
      }
      for i := 0 to NR_DPUS
        invariant forall d :: 0 <= d < i ==> results[d] == Received(outs[d].coo, maxCapacity)
      {
        results[i] := Received(outs[i].coo, maxCapacity);
      }
    }

    /** Writes every counted result of one list to its row. */
    method MergeOne(coo: Coo, vals: array<nat>)
      requires coo.nnz <= |coo.data| && RowsBelow(Counted(coo), vals.Length)
      modifies vals
      ensures vals[..] == Scatter(old(vals[..]), Counted(coo))
    {
      for j := 0 to coo.nnz
        invariant RowsBelow(coo.data[..j], vals.Length) && vals[..] == Scatter(old(vals[..]), coo.data[..j])
      {
        assert Counted(coo)[j] == coo.data[j];
        assert coo.data[..j + 1] == coo.data[..j] + [coo.data[j]];
        ScatterAppend(old(vals[..]), coo.data[..j], coo.data[j]);
        vals[coo.data[j].row] := coo.data[j].val;
      }
    }

    /** Scatters the lists of all DPUs. */
    method MergeResults(vals: array<nat>)
      requires Valid() && vals != sizes
      requires forall d :: 0 <= d < NR_DPUS ==> results[d].nnz <= |results[d].data|
      requires forall d :: 0 <= d < NR_DPUS ==> RowsBelow(Counted(results[d]), vals.Length)
      modifies vals
      ensures RowsBelow(AllResults(results[..], NR_DPUS), vals.Length)
      ensures vals[..] == Scatter(old(vals[..]), AllResults(results[..], NR_DPUS))
    {
      ghost var coos := results[..];
      for i := 0 to NR_DPUS
        invariant results[..] == coos && RowsBelow(AllResults(coos, i), vals.Length)
        invariant vals[..] == Scatter(old(vals[..]), AllResults(coos, i))
      {
        MergeOne(results[i], vals);
        ScatterConcat(old(vals[..]), AllResults(coos, i), Counted(coos[i]));
      }
    }
  }
}
