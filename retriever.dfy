/**
 * The ranking step of `retrieve_chunks`: the chunk indices are argsorted by
 * similarity score (ascending), the last `topK` of them are kept with a
 * Python slice `[-topK:]`, and that tail is reversed so that the best chunk
 * comes first. The similarity scores themselves (TF-IDF vectors and cosine
 * similarity) are an input here.
 *
 * The argsort is not stable, so the order among equal scores is not fixed:
 * the model takes the argsort result `order` as an input too, constrained
 * only by `IsArgsort`, and every property below holds for every such order.
 */
module Retriever {
  import opened Numbers

  /** `retrieve_chunks` is called with its default `top_k`. */
  const DEFAULT_TOP_K := 3

  /**
   * `order` is a possible result of an ascending argsort of `scores`: it lists
   * every index of `scores` exactly once, in non-decreasing score order.
   */
  predicate IsArgsort(scores: seq<int>, order: seq<nat>)
  {
    && |order| == |scores|
    && (forall p :: 0 <= p < |order| ==> order[p] < |scores|)
    && (forall p, q :: 0 <= p < q < |order| ==> order[p] != order[q])
    && (forall j :: 0 <= j < |scores| ==> j in order)
    && (forall p, q :: 0 <= p < q < |order| ==> scores[order[p]] <= scores[order[q]])
  }

  /**
   * Where the Python slice `a[k:]` starts in a sequence of length `n`: a
   * negative `k` counts from the end and is clamped to 0, a non-negative one
   * is clamped to `n`.
   */
  function SliceStart(n: nat, k: int): (s: nat)
    ensures s <= n
  {
    if k < 0 then Max(0, n + k) else Min(k, n)
  }

  /** `a[::-1]`. */
  function Reversed(a: seq<nat>): (r: seq<nat>)
    ensures |r| == |a|
    ensures forall i :: 0 <= i < |a| ==> r[i] == a[|a| - 1 - i]
  {
    seq(|a|, i requires 0 <= i < |a| => a[|a| - 1 - i])
  }

  /**
   * `np.argsort(scores)[-topK:][::-1]`: the indices of the best `topK`
   * scores, best first. With `topK == 0` the slice `[-0:]` keeps every
   * index; a negative `topK` drops the `-topK` lowest-ranked ones.
   */
  function TopIndices(scores: seq<int>, order: seq<nat>, topK: int): (top: seq<nat>)
    requires IsArgsort(scores, order)
    ensures topK >= 1 ==> |top| == Min(topK, |scores|)
    ensures topK == 0 ==> |top| == |scores|
    ensures topK < 0 ==> |top| == Max(0, |scores| + topK)
    ensures forall i :: 0 <= i < |top| ==> top[i] < |scores|
    ensures forall i, j :: 0 <= i < j < |top| ==> top[i] != top[j]
    ensures forall i, j :: 0 <= i < j < |top| ==> scores[top[i]] >= scores[top[j]]
  {
    Reversed(order[SliceStart(|order|, -topK)..])
  }

  /** Where an index stands in the argsort result. */
  lemma RankOf(scores: seq<int>, order: seq<nat>, j: nat) returns (p: nat)
    requires IsArgsort(scores, order) && j < |scores|
    ensures p < |order| && order[p] == j
  {
    assert j in order;
    p :| 0 <= p < |order| && order[p] == j;
  }

  /**
   * No index that the selection leaves out scores higher than any index it
   * keeps; and with `topK == 0`, or `topK` at least the number of chunks,
   * nothing is left out.
   */
  lemma TopIndicesDominate(scores: seq<int>, order: seq<nat>, topK: int)
    requires IsArgsort(scores, order)
    ensures var top := TopIndices(scores, order, topK);
      forall i, j :: 0 <= i < |top| && 0 <= j < |scores| && j !in top ==>
        scores[j] <= scores[top[i]]
    ensures topK == 0 || topK >= |scores| ==>
      forall j :: 0 <= j < |scores| ==> j in TopIndices(scores, order, topK)
  {
    var top := TopIndices(scores, order, topK);
    var n := |order|;
    var start := SliceStart(n, -topK);
    // The kept indices are exactly those at ranks `start` and above.
    forall p | start <= p < n
      ensures order[p] in top
    {
      assert top[n - 1 - p] == order[p];
    }
    forall i, j | 0 <= i < |top| && 0 <= j < |scores| && j !in top
      ensures scores[j] <= scores[top[i]]
    {
      var p := RankOf(scores, order, j);
      assert top[i] == order[n - 1 - i];
      assert p < start <= n - 1 - i;
    }
    if topK == 0 || topK >= |scores| {
      forall j | 0 <= j < |scores|
        ensures j in top
      {
        var p := RankOf(scores, order, j);
        assert start <= p;
      }
    }
  }

  /**
   * The chunks `retrieve_chunks` returns: those at the selected indices, in
   * the selection's order (best score first).
   */
  function RetrieveChunks(chunks: seq<string>, scores: seq<int>, order: seq<nat>, topK: int)
    : (r: seq<string>)
    requires |scores| == |chunks| && IsArgsort(scores, order)
    ensures var top := TopIndices(scores, order, topK);
      |r| == |top| && forall i :: 0 <= i < |r| ==> r[i] == chunks[top[i]]
    ensures forall c :: c in r ==> c in chunks
  {
    var top := TopIndices(scores, order, topK);
    seq(|top|, i requires 0 <= i < |top| => chunks[top[i]])
  }
}
