/** The similarity computation of lookup: the query matrix is padded with
    zero feature rows to the index's width, the sparse index is multiplied
    by it, and the product is transposed to queries x database strings. */
module Scoring {
  import opened Sparse

  /** The inner product of two vectors of one length. */
  function Dot(u: seq<real>, v: seq<real>): real
    requires |u| == |v|
  {
    if u == [] then 0.0 else u[0] * v[0] + Dot(u[1..], v[1..])
  }

  /** Column `c` of a matrix whose rows all have more than `c` values. */
  function Column(b: seq<seq<real>>, c: nat): (x: seq<real>)
    requires forall f :: 0 <= f < |b| ==> c < |b[f]|
    ensures |x| == |b| && forall f :: 0 <= f < |b| ==> x[f] == b[f][c]
  {
    seq(|b|, f requires 0 <= f < |b| => b[f][c])
  }

  /** `x` cut or extended with zeros to length `n`. */
  function Resize(x: seq<real>, n: nat): (y: seq<real>)
    ensures |y| == n
  {
    seq(n, (f: nat) => if f < |x| then x[f] else 0.0)
  }

  /** The score of query vector `x` against each database row of `index`:
      the sum over features f of index[d][f] * x[f], where features the
      query does not reach count as zero. */
  function Similarity(index: Coo, x: seq<real>): (s: seq<real>)
    ensures |s| == index.rows
  {
    var dense := Densify(index);
    var y := Resize(x, index.cols);
    seq(index.rows, d requires 0 <= d < index.rows => Dot(dense[d], y))
  }

  /** torch.sparse.mm's value in row `d` against the column vector `x`:
      every stored element of row `d` times the entry of `x` at its column. */
  function RowProduct(es: seq<Entry>, d: nat, x: seq<real>): real
    requires forall k :: 0 <= k < |es| ==> es[k].col < |x|
  {
    if es == [] then 0.0
    else (if es[0].row == d then es[0].val * x[es[0].col] else 0.0) + RowProduct(es[1..], d, x)
  }

  /** torch.sparse.mm(m, b) for a dense `m.cols` x `bCols` matrix `b`: summed
      over the stored elements of row d, each value times b's entry at its
      column. That is the inner product of row d of m's dense form with
      column c of b. */
  function SparseMM(m: Coo, b: seq<seq<real>>, bCols: nat): (p: seq<seq<real>>)
    requires WellFormed(m) && IsMatrix(b, m.cols, bCols)
    ensures IsMatrix(p, m.rows, bCols)
    ensures forall d, c :: 0 <= d < m.rows && 0 <= c < bCols ==> p[d][c] == Dot(Densify(m)[d], Column(b, c))
  {
    RowProductsAreDots(m, b, bCols);
    seq(m.rows, d requires 0 <= d < m.rows =>
      seq(bCols, c requires 0 <= c < bCols => RowProduct(m.entries, d, Column(b, c))))
  }

  lemma {:induction false} DotZero(u: seq<real>, x: seq<real>)
    requires |u| == |x|
    requires forall f :: 0 <= f < |u| ==> u[f] == 0.0
    ensures Dot(u, x) == 0.0
  {
    if u != [] {
      DotZero(u[1..], x[1..]);
    }
  }

  /** A vector that is zero outside position `k` picks out x[k]. */
  lemma {:induction false} DotSingle(u: seq<real>, x: seq<real>, k: nat)
    requires |u| == |x| && k < |u|
    requires forall f :: 0 <= f < |u| && f != k ==> u[f] == 0.0
    ensures Dot(u, x) == u[k] * x[k]
  {
    if k == 0 {
      DotZero(u[1..], x[1..]);
    } else {
      DotSingle(u[1..], x[1..], k - 1);
    }
  }

  /** The inner product distributes over a pointwise sum. */
  lemma {:induction false} DotAdd(u: seq<real>, w: seq<real>, s: seq<real>, x: seq<real>)
    requires |u| == |w| == |s| == |x|
    requires forall f :: 0 <= f < |s| ==> s[f] == u[f] + w[f]
    ensures Dot(s, x) == Dot(u, x) + Dot(w, x)
  {
    if s != [] {
      DotAdd(u[1..], w[1..], s[1..], x[1..]);
    }
  }

  /** The sparse row product equals the dense inner product of the row. */
  lemma {:induction false} RowProductIsDot(es: seq<Entry>, d: nat, x: seq<real>)
    requires forall k :: 0 <= k < |es| ==> es[k].col < |x|
    ensures RowProduct(es, d, x) == Dot(DenseRow(es, d, |x|), x)
  {
    var n := |x|;
    if es == [] {
      DotZero(DenseRow(es, d, n), x);
    } else {
      var e := es[0];
      var u := seq(n, (f: nat) => if e.row == d && e.col == f then e.val else 0.0);
      RowProductIsDot(es[1..], d, x);
      DotAdd(u, DenseRow(es[1..], d, n), DenseRow(es, d, n), x);
      DotSingle(u, x, e.col);
    }
  }

  lemma RowProductsAreDots(m: Coo, b: seq<seq<real>>, bCols: nat)
    requires WellFormed(m) && IsMatrix(b, m.cols, bCols)
    ensures forall d, c :: 0 <= d < m.rows && 0 <= c < bCols ==>
      RowProduct(m.entries, d, Column(b, c)) == Dot(Densify(m)[d], Column(b, c))
  {
    forall d, c | 0 <= d < m.rows && 0 <= c < bCols
      ensures RowProduct(m.entries, d, Column(b, c)) == Dot(Densify(m)[d], Column(b, c))
    {
      RowProductIsDot(m.entries, d, Column(b, c));
    }
  }

  /** similarities = torch.sparse.mm(index, b).T: a `bCols` x `index.rows`
      matrix whose row q is the score of column q of `b` against every
      database row. */
  function Similarities(index: Coo, b: seq<seq<real>>, bCols: nat): (s: seq<seq<real>>)
    requires WellFormed(index) && IsMatrix(b, index.cols, bCols)
    ensures IsMatrix(s, bCols, index.rows)
    ensures forall q :: 0 <= q < bCols ==> s[q] == Similarity(index, Column(b, q))
  {
    var p := SparseMM(index, b, bCols);
    ProductRowsAreSimilarities(index, b, bCols);
    Transpose(p, bCols)
  }

  lemma ProductRowsAreSimilarities(index: Coo, b: seq<seq<real>>, bCols: nat)
    requires WellFormed(index) && IsMatrix(b, index.cols, bCols)
    ensures forall q :: 0 <= q < bCols ==>
      Transpose(SparseMM(index, b, bCols), bCols)[q] == Similarity(index, Column(b, q))
  {
    var p := SparseMM(index, b, bCols);
    var t := Transpose(p, bCols);
    forall q | 0 <= q < bCols ensures t[q] == Similarity(index, Column(b, q)) {
      var x := Column(b, q);
      assert Resize(x, index.cols) == x;
      var sim := Similarity(index, x);
      forall d | 0 <= d < index.rows ensures t[q][d] == sim[d] {
        assert t[q][d] == p[d][q];
      }
    }
  }

  /** lookup's alignment step: a features x `qCount` query matrix with
      fewer feature rows than the index's `maxFeatures` columns gets zero
      rows appended until it has `maxFeatures`. */
  method PadFeatures(q: seq<seq<real>>, qCount: nat, maxFeatures: nat) returns (p: seq<seq<real>>)
    requires IsMatrix(q, |q|, qCount)
    ensures IsMatrix(p, if |q| < maxFeatures then maxFeatures else |q|, qCount)
    ensures p[..|q|] == q
    ensures forall f, c :: |q| <= f < |p| && 0 <= c < qCount ==> p[f][c] == 0.0
  {
    p := q;
    if |q| < maxFeatures {
      var zeros := seq(maxFeatures - |q|, _ => seq(qCount, _ => 0.0));
      p := q + zeros;
    }
  }

  /** Padding does not change any score: a padded column, read through
      Similarity, is the original column extended with zeros. */
  lemma PaddedColumnsScoreAlike(index: Coo, q: seq<seq<real>>, p: seq<seq<real>>, qCount: nat, c: nat)
    requires IsMatrix(q, |q|, qCount) && IsMatrix(p, |p|, qCount) && c < qCount
    requires |q| <= |p| && p[..|q|] == q
    requires forall f, c' :: |q| <= f < |p| && 0 <= c' < qCount ==> p[f][c'] == 0.0
    ensures Resize(Column(p, c), index.cols) == Resize(Column(q, c), index.cols)
    ensures Similarity(index, Column(p, c)) == Similarity(index, Column(q, c))
  {
    forall f | 0 <= f < |q| ensures p[f] == q[f] {
      assert p[..|q|][f] == p[f];
    }
    assert Resize(Column(p, c), index.cols) == Resize(Column(q, c), index.cols);
  }

  lemma {:induction false} EntrySumNonnegative(es: seq<Entry>, i: nat, j: nat)
    requires forall k :: 0 <= k < |es| ==> es[k].val >= 0.0
    ensures EntrySum(es, i, j) >= 0.0
  {
    if es != [] {
      EntrySumNonnegative(es[1..], i, j);
    }
  }

  lemma {:induction false} DotNonnegative(u: seq<real>, v: seq<real>)
    requires |u| == |v|
    requires forall f :: 0 <= f < |u| ==> u[f] >= 0.0 && v[f] >= 0.0
    ensures Dot(u, v) >= 0.0
  {
    if u != [] {
      DotNonnegative(u[1..], v[1..]);
      assert u[0] * v[0] >= 0.0;
    }
  }

  /** No weight is negative, so no score is: with nonnegative index and
      query values every similarity is at least zero. */
  lemma SimilarityNonnegative(index: Coo, x: seq<real>)
    requires forall k :: 0 <= k < |index.entries| ==> index.entries[k].val >= 0.0
    requires forall f :: 0 <= f < |x| ==> x[f] >= 0.0
    ensures forall d :: 0 <= d < index.rows ==> Similarity(index, x)[d] >= 0.0
  {
    var dense := Densify(index);
    var y := Resize(x, index.cols);
    forall d | 0 <= d < index.rows ensures Similarity(index, x)[d] >= 0.0 {
      forall f | 0 <= f < index.cols ensures dense[d][f] >= 0.0 {
        EntrySumNonnegative(index.entries, d, f);
      }
      DotNonnegative(dense[d], y);
    }
  }
}
