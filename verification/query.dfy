/** lookup: score a batch of vectorised queries against the index and
    return, per query, the top-k (string, similarity) pairs. */
module Query {
  import opened Failures
  import opened Sparse
  import opened Scoring
  import opened Selection
  import opened Index

  /** One (hit, sim) pair of a result list. */
  datatype Hit = Hit(text: string, sim: real)

  /** `hits` is the list built from the top-k positions `idx` of `row`:
      the string at each position with its score. */
  predicate Assembled(hits: seq<Hit>, idx: seq<nat>, row: seq<real>, strings: seq<string>) {
    && |hits| == |idx|
    && forall j :: 0 <= j < |idx| ==>
         idx[j] < |row| && idx[j] < |strings| && hits[j] == Hit(strings[idx[j]], row[idx[j]])
  }

  /** `hits` lists `k` distinct database strings with their scores from
      `row`, highest first, none beaten by a string left out. */
  ghost predicate RankedHits(hits: seq<Hit>, row: seq<real>, strings: seq<string>, k: int) {
    exists idx: seq<nat> :: IsTopK(row, idx, k) && Assembled(hits, idx, row, strings)
  }

  /** The steps of lookup after vectorising: `query` is the dense
      features x `qCount` query matrix; it is padded to the index's width,
      multiplied with the index, transposed, and each row's top-k positions
      are turned into (string, similarity) pairs. torch.sparse.mm refuses a
      query wider than the index, torch.topk a `topk` outside 0..rows. */
  method Rank(index: Coo, query: seq<seq<real>>, qCount: nat, strings: seq<string>, topk: int)
    returns (r: Result<seq<seq<Hit>>>)
    requires WellFormed(index) && index.rows <= |strings|
    requires IsMatrix(query, |query|, qCount)
    ensures r.Err? <==> |query| > index.cols || topk < 0 || topk > index.rows
    ensures r.Err? ==> r.error == if |query| > index.cols then ShapeMismatch else TopkOutOfRange
    ensures r.Ok? ==> |r.value| == qCount
    ensures r.Ok? ==> forall q :: 0 <= q < qCount ==>
      RankedHits(r.value[q], Similarity(index, Column(query, q)), strings, topk)
  {
    var maxFeatures := index.cols;
    var padded := PadFeatures(query, qCount, maxFeatures);
    if |query| > maxFeatures {
      return Err(ShapeMismatch);
    }
    var sims := Similarities(index, padded, qCount);
    if topk < 0 || topk > index.rows {
      return Err(TopkOutOfRange);
    }
    var indices, values := TopKRows(sims, index.rows, topk);
    var result: seq<seq<Hit>> := [];
    for q := 0 to qCount
      invariant |result| == q
      invariant forall p :: 0 <= p < q ==> Assembled(result[p], indices[p], sims[p], strings)
    {
      result := result + [[]];
      for j := 0 to topk
        invariant |result| == q + 1
        invariant forall p :: 0 <= p < q ==> Assembled(result[p], indices[p], sims[p], strings)
        invariant |result[q]| == j
        invariant forall t :: 0 <= t < j ==> result[q][t] == Hit(strings[indices[q][t]], values[q][t])
      {
        result := result[q := result[q] + [Hit(strings[indices[q][j]], values[q][j])]];
      }
    }
    r := Ok(result);
    forall q | 0 <= q < qCount
      ensures RankedHits(result[q], Similarity(index, Column(query, q)), strings, topk)
    {
      PaddedColumnsScoreAlike(index, query, padded, qCount, q);
      assert IsTopK(sims[q], indices[q], topk) && Assembled(result[q], indices[q], sims[q], strings);
    }
  }

  lemma ColumnOfTranspose(a: seq<seq<real>>, cols: nat, q: nat)
    requires IsMatrix(a, |a|, cols) && q < |a|
    ensures Column(Transpose(a, cols), q) == a[q]
  {
  }

  /** lookup as written: the vectorised queries go through
      scipy2torch_sparse, so the number of result lists is the inferred
      row count, one past the last query that shares a trigram with the
      vocabulary. `vectorized` is model.vectorizer.transform(queries). */
  method Lookup(vectorized: seq<Entry>, model: SSCModel, topk: int) returns (r: Result<seq<seq<Hit>>>)
    requires model.Valid()
    ensures ToTorchSparse(vectorized).Err? ==> r == Err(LengthMismatch)
    ensures ToTorchSparse(vectorized).Ok? ==>
      var qm := ToTorchSparse(vectorized).value;
      && (r.Err? <==> qm.cols > model.matrix.cols || topk < 0 || topk > model.matrix.rows)
      && (r.Ok? ==> |r.value| == qm.rows)
      && (r.Ok? ==> forall q :: 0 <= q < qm.rows ==>
            RankedHits(r.value[q], Similarity(model.matrix, Densify(qm)[q]), model.strings, topk))
  {
    var converted := ToTorchSparse(vectorized);
    if converted.Err? {
      return Err(converted.error);
    }
    var qm := converted.value;
    var query := Transpose(Densify(qm), qm.cols);  // features x queries
    r := Rank(model.matrix, query, qm.rows, model.strings, topk);
    forall q | 0 <= q < qm.rows ensures Column(query, q) == Densify(qm)[q] {
      ColumnOfTranspose(Densify(qm), qm.cols, q);
    }
  }

  /** lookup with the query matrix given its full shape (one row per query,
      the index's width): one result list for every query. */
  method LookupAllQueries(queryCount: nat, vectorized: seq<Entry>, model: SSCModel, topk: int)
    returns (r: Result<seq<seq<Hit>>>)
    requires model.Valid()
    ensures FromCoo(vectorized, queryCount, model.matrix.cols).Err? ==>
      r == Err(FromCoo(vectorized, queryCount, model.matrix.cols).error)
    ensures FromCoo(vectorized, queryCount, model.matrix.cols).Ok? ==>
      (r.Err? <==> topk < 0 || topk > model.matrix.rows)
    ensures r.Ok? ==> |r.value| == queryCount
    ensures r.Ok? ==> forall q :: 0 <= q < queryCount ==>
      RankedHits(r.value[q], Similarity(model.matrix, Densify(Coo(queryCount, model.matrix.cols, vectorized))[q]),
                 model.strings, topk)
  {
    var converted := FromCoo(vectorized, queryCount, model.matrix.cols);
    if converted.Err? {
      return Err(converted.error);
    }
    var qm := converted.value;
    var query := Transpose(Densify(qm), qm.cols);
    r := Rank(model.matrix, query, qm.rows, model.strings, topk);
    forall q | 0 <= q < qm.rows ensures Column(query, q) == Densify(qm)[q] {
      ColumnOfTranspose(Densify(qm), qm.cols, q);
    }
  }

  /** The discrepancy Lookup shows: two queries of which only the first
      shares a trigram with the vocabulary are vectorised to one element
      in row 0; the inferred query matrix has one row, so Lookup returns one
      list, where LookupAllQueries's matrix has a row for each query. A
      batch in which no query shares a trigram gets no list at all. */
  lemma TrailingUnmatchedQueryDropped()
    ensures var vectorized := [Entry(0, 0, 1.0)];
      && ToTorchSparse(vectorized).Ok?
      && ToTorchSparse(vectorized).value.rows == 1
      && FromCoo(vectorized, 2, 1).Ok?
      && FromCoo(vectorized, 2, 1).value.rows == 2
    ensures ToTorchSparse([]) == Ok(Coo(0, 0, []))
  {
    var vectorized := [Entry(0, 0, 1.0)];
    assert !HasExplicitZero(vectorized);
    assert Fits(vectorized, 1, 1);
  }
}
