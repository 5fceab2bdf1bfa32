/**
 * Summing per-file results into run totals. Workers add their counts to
 * shared counters in whatever order they finish; the totals are sums over
 * the successful results, which do not depend on that order.
 */
module Aggregation {
  import opened Wrappers
  import opened Units
  import opened Storage
  import opened Compaction

  type FileResult = Result<ProcessedRegion, RegionError>

  function ChunksOf(p: ProcessedRegion): nat { p.totalChunks }

  function DeletedOf(p: ProcessedRegion): nat { p.deletedChunks }

  /** What one result adds to a sum. */
  function ResultShare(result: FileResult, field: ProcessedRegion -> nat): nat
  {
    if result.Success? then field(result.value) else 0
  }

  /**
   * The sum of `field` over the successful results; a failed file adds
   * nothing. The empty and one-result cases, with `SumAppend`, determine it.
   */
  function SumOk(results: seq<FileResult>, field: ProcessedRegion -> nat): (r: nat)
    ensures |results| == 0 ==> r == 0
    ensures |results| == 1 ==> r == ResultShare(results[0], field)
    decreases |results|
  {
    if |results| == 0 then 0
    else ResultShare(results[0], field) + SumOk(results[1..], field)
  }

  /** The per-file results of processing `files` in order with the same threshold. */
  function ResultsOf(files: seq<RegionPath>, maxInhabitedTime: USize): (rs: seq<FileResult>)
    ensures |rs| == |files|
    ensures forall i :: 0 <= i < |files| ==> rs[i] == ProcessRegionFile(files[i], maxInhabitedTime).result
    decreases |files|
  {
    if |files| == 0 then []
    else [ProcessRegionFile(files[0], maxInhabitedTime).result] + ResultsOf(files[1..], maxInhabitedTime)
  }

  lemma {:induction false} SumAppend(a: seq<FileResult>, b: seq<FileResult>, field: ProcessedRegion -> nat)
    ensures SumOk(a + b, field) == SumOk(a, field) + SumOk(b, field)
    decreases |a|
  {
    if |a| == 0 {
      assert a + b == b;
    } else {
      assert (a + b)[0] == a[0];
      assert (a + b)[1..] == a[1..] + b;
      SumAppend(a[1..], b, field);
    }
  }

  /** Extending a prefix of the results by one adds that result's share. */
  lemma SumPrefixStep(results: seq<FileResult>, i: nat, field: ProcessedRegion -> nat)
    requires i < |results|
    ensures SumOk(results[..i + 1], field) == SumOk(results[..i], field) + ResultShare(results[i], field)
  {
    assert results[..i + 1] == results[..i] + [results[i]];
    SumAppend(results[..i], [results[i]], field);
  }

  /** Taking one result out of a sequence takes its share out of the sum. */
  lemma SumRemoveAt(b: seq<FileResult>, k: nat, field: ProcessedRegion -> nat)
    requires k < |b|
    ensures SumOk(b, field) == ResultShare(b[k], field) + SumOk(b[..k] + b[k + 1..], field)
  {
    assert b == b[..k] + b[k..];
    assert b[k..][0] == b[k] && b[k..][1..] == b[k + 1..];
    SumAppend(b[..k], b[k..], field);
    SumAppend(b[..k], b[k + 1..], field);
  }

  /** No result counts for more than the total it is part of. */
  lemma ShareBounded(results: seq<FileResult>, i: nat, field: ProcessedRegion -> nat)
    requires i < |results|
    ensures ResultShare(results[i], field) <= SumOk(results, field)
  {
    SumRemoveAt(results, i, field);
  }

  /** When every file failed, the totals are zero. */
  lemma {:induction false} AllFailedSumZero(results: seq<FileResult>, field: ProcessedRegion -> nat)
    requires forall i :: 0 <= i < |results| ==> results[i].Failure?
    ensures SumOk(results, field) == 0
    decreases |results|
  {
    if |results| > 0 {
      AllFailedSumZero(results[1..], field);
    }
  }

  /** Taking one result out of a sequence takes it out of the multiset. */
  lemma MultisetRemoveAt(b: seq<FileResult>, k: nat)
    requires k < |b|
    ensures multiset(b[..k] + b[k + 1..]) == multiset(b) - multiset{b[k]}
  {
    assert b == b[..k] + [b[k]] + b[k + 1..];
    assert multiset(b) == multiset(b[..k]) + multiset{b[k]} + multiset(b[k + 1..]);
  }

  /** Two rearrangements of each other, with the first element of one removed from both. */
  lemma PermutationTail(a: seq<FileResult>, b: seq<FileResult>, k: nat)
    requires |a| > 0 && k < |b| && b[k] == a[0]
    requires multiset(a) == multiset(b)
    ensures multiset(a[1..]) == multiset(b[..k] + b[k + 1..])
  {
    MultisetRemoveAt(b, k);
    MultisetRemoveAt(a, 0);
    assert a[..0] + a[1..] == a[1..];
  }

  /**
   * The totals do not depend on the order in which results arrive: any
   * rearrangement of the same results has the same sums.
   */
  lemma {:induction false} SumPermutation(a: seq<FileResult>, b: seq<FileResult>, field: ProcessedRegion -> nat)
    requires multiset(a) == multiset(b)
    ensures SumOk(a, field) == SumOk(b, field)
    decreases |a|
  {
    if |a| == 0 {
      assert |multiset(b)| == 0;
    } else {
      assert a[0] in multiset(b);
      var k :| 0 <= k < |b| && b[k] == a[0];
      PermutationTail(a, b, k);
      SumPermutation(a[1..], b[..k] + b[k + 1..], field);
      SumRemoveAt(b, k, field);
    }
  }

  /** A failed file contributes nothing: the sums are those of the successful results alone. */
  lemma FailuresAddNothing(results: seq<FileResult>, i: nat, field: ProcessedRegion -> nat)
    requires i < |results| && results[i].Failure?
    ensures SumOk(results, field) == SumOk(results[..i] + results[i + 1..], field)
  {
    SumRemoveAt(results, i, field);
  }

  /** A successful result that removed no more chunks than it examined, and examined at most a grid. */
  predicate WithinGrid(result: FileResult)
  {
    result.Success? ==> result.value.deletedChunks <= result.value.totalChunks <= SLOT_COUNT
  }

  /** Results that each stay within a grid add up to at most a grid per result. */
  lemma {:induction false} SumWithinGrid(results: seq<FileResult>)
    requires forall i :: 0 <= i < |results| ==> WithinGrid(results[i])
    ensures SumOk(results, DeletedOf) <= SumOk(results, ChunksOf) <= SLOT_COUNT * |results|
    decreases |results|
  {
    if |results| > 0 {
      SumWithinGrid(results[1..]);
    }
  }

  /** Each successful file adds at most 1024 examined chunks, and never more removed than examined. */
  lemma SumBounds(files: seq<RegionPath>, maxInhabitedTime: USize)
    ensures var rs := ResultsOf(files, maxInhabitedTime);
      SumOk(rs, DeletedOf) <= SumOk(rs, ChunksOf) <= SLOT_COUNT * |files|
  {
    SumWithinGrid(ResultsOf(files, maxInhabitedTime));
  }
}
