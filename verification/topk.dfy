/** Per-requirement top-k selection: `torch.topk(cosine_scores[i], k)` picks
    the `k` largest entries of a score row and returns them in descending
    order. The library does not promise any order among equal scores, so
    the selection is specified by `IsTopK` alone; `SelectTopK` is one
    selection meeting it. Scores are modelled as `real`. */
module TopK {

  /** At most this many matches are kept per requirement. */
  const MaxMatches: nat := 5

  /** `min(5, len(experience_corpus))`. */
  function MatchCount(corpusSize: nat): (k: nat)
    ensures k <= MaxMatches && k <= corpusSize
    ensures k == MaxMatches || k == corpusSize
  {
    if corpusSize < MaxMatches then corpusSize else MaxMatches
  }

  predicate Distinct(s: seq<nat>)
  {
    forall a, b :: 0 <= a < b < |s| ==> s[a] != s[b]
  }

  /** `sel` lists `k` distinct positions of `row`, by non-increasing score,
      and no position left out scores higher than one selected. */
  predicate IsTopK(row: seq<real>, k: nat, sel: seq<nat>)
  {
    && |sel| == k
    && (forall a :: 0 <= a < |sel| ==> sel[a] < |row|)
    && Distinct(sel)
    && (forall a, b :: 0 <= a < b < |sel| ==> row[sel[a]] >= row[sel[b]])
    && (forall a, j :: 0 <= a < |sel| && 0 <= j < |row| && j !in sel ==> row[sel[a]] >= row[j])
  }

  /** The position in `pool` of a highest-scoring candidate. */
  method ArgMaxIn(row: seq<real>, pool: seq<nat>) returns (p: nat)
    requires |pool| > 0
    requires forall q :: 0 <= q < |pool| ==> pool[q] < |row|
    ensures p < |pool|
    ensures forall q :: 0 <= q < |pool| ==> row[pool[p]] >= row[pool[q]]
  {
    p := 0;
    var q := 1;
    while q < |pool|
      invariant 1 <= q <= |pool|
      invariant p < q
      invariant forall t :: 0 <= t < q ==> row[pool[p]] >= row[pool[t]]
    {
      if row[pool[q]] > row[pool[p]] {
        p := q;
      }
      q := q + 1;
    }
  }

  /** Selects the `k` best positions of `row` by repeatedly taking a best
      remaining candidate out of the pool of unselected positions. */
  method SelectTopK(row: seq<real>, k: nat) returns (sel: seq<nat>)
    requires k <= |row|
    ensures IsTopK(row, k, sel)
  {
    sel := [];
    var pool: seq<nat> := seq(|row|, j requires 0 <= j => j as nat);
    assert forall j :: 0 <= j < |row| ==> pool[j] == j && j in pool;
    while |sel| < k
      invariant |sel| <= k
      invariant |sel| + |pool| == |row|
      invariant forall a :: 0 <= a < |sel| ==> sel[a] < |row|
      invariant forall q :: 0 <= q < |pool| ==> pool[q] < |row|
      invariant Distinct(sel) && Distinct(pool)
      invariant forall j :: 0 <= j < |row| ==> (j in sel <==> j !in pool)
      invariant forall a, b :: 0 <= a < b < |sel| ==> row[sel[a]] >= row[sel[b]]
      invariant forall a, q :: 0 <= a < |sel| && 0 <= q < |pool| ==> row[sel[a]] >= row[pool[q]]
      decreases k - |sel|
    {
      var p := ArgMaxIn(row, pool);
      var best := pool[p];
      assert best !in sel;
      sel := sel + [best];
      ghost var before := pool;
      pool := pool[..p] + pool[p + 1..];
      assert forall q :: 0 <= q < |pool| ==> pool[q] == before[if q < p then q else q + 1];
    }
  }
}
