/** torch.topk over the rows of the similarity matrix, as a specification
    and a selection procedure that meets it. Ties may be broken either way:
    the specification fixes no order among equal scores. */
module Selection {

  /** `idx` names `k` distinct positions of `row`, best first, and no
      position left out scores higher than one taken. */
  predicate IsTopK(row: seq<real>, idx: seq<nat>, k: int) {
    && |idx| == k
    && (forall j :: 0 <= j < |idx| ==> idx[j] < |row|)
    && (forall i, j :: 0 <= i < j < |idx| ==> idx[i] != idx[j])
    && (forall i, j :: 0 <= i < j < |idx| ==> row[idx[i]] >= row[idx[j]])
    && (forall j, c :: 0 <= j < |idx| && 0 <= c < |row| && c !in idx ==> row[idx[j]] >= row[c])
  }

  /** The position in `rest` of a largest value of `row` among the positions it lists. */
  method BestRemaining(row: seq<real>, rest: seq<nat>) returns (best: nat)
    requires |rest| > 0 && forall m :: 0 <= m < |rest| ==> rest[m] < |row|
    ensures best < |rest| && forall p :: 0 <= p < |rest| ==> row[rest[best]] >= row[rest[p]]
  {
    best := 0;
    for m := 1 to |rest|
      invariant 0 <= best < |rest|
      invariant forall p :: 0 <= p < m ==> row[rest[best]] >= row[rest[p]]
    {
      if row[rest[m]] > row[rest[best]] {
        best := m;
      }
    }
  }

  function RemoveAt(s: seq<nat>, i: nat): (r: seq<nat>)
    requires i < |s|
    ensures |r| == |s| - 1
    ensures forall m :: 0 <= m < |r| ==> r[m] == if m < i then s[m] else s[m + 1]
    ensures forall c :: c in s && c != s[i] ==> c in r
  {
    s[..i] + s[i + 1..]
  }

  /** `rest` lists, once each, exactly the positions of `row` that
      `indices` has not taken. */
  ghost predicate Complement(row: seq<real>, indices: seq<nat>, rest: seq<nat>) {
    && |indices| + |rest| == |row|
    && (forall m :: 0 <= m < |rest| ==> rest[m] < |row| && rest[m] !in indices)
    && (forall m, m' :: 0 <= m < m' < |rest| ==> rest[m] != rest[m'])
    && (forall c :: 0 <= c < |row| && c !in indices ==> c in rest)
  }

  /** `indices` names distinct positions of `row`, best first. */
  ghost predicate RankedDistinct(row: seq<real>, indices: seq<nat>) {
    && (forall j :: 0 <= j < |indices| ==> indices[j] < |row|)
    && (forall i, j :: 0 <= i < j < |indices| ==> indices[i] != indices[j])
    && (forall i, j :: 0 <= i < j < |indices| ==> row[indices[i]] >= row[indices[j]])
  }

  /** No position in `rest` scores above a position taken. */
  ghost predicate Dominates(row: seq<real>, indices: seq<nat>, rest: seq<nat>)
    requires forall j :: 0 <= j < |indices| ==> indices[j] < |row|
    requires forall m :: 0 <= m < |rest| ==> rest[m] < |row|
  {
    forall j, m :: 0 <= j < |indices| && 0 <= m < |rest| ==> row[indices[j]] >= row[rest[m]]
  }

  /** The state of the selection in TopK: `indices` are the positions
      taken so far, best first, and `rest` lists each position not taken,
      once, none scoring above a position taken. */
  ghost predicate Selecting(row: seq<real>, indices: seq<nat>, rest: seq<nat>) {
    && Complement(row, indices, rest)
    && RankedDistinct(row, indices)
    && Dominates(row, indices, rest)
  }

  /** `best` is a position in `rest` of a largest remaining value. */
  ghost predicate IsBest(row: seq<real>, rest: seq<nat>, best: nat) {
    && best < |rest|
    && (forall m :: 0 <= m < |rest| ==> rest[m] < |row|)
    && forall p :: 0 <= p < |rest| ==> row[rest[best]] >= row[rest[p]]
  }

  lemma RestStep(row: seq<real>, indices: seq<nat>, rest: seq<nat>, best: nat)
    requires Complement(row, indices, rest) && best < |rest|
    ensures forall m :: 0 <= m < |RemoveAt(rest, best)| ==>
      RemoveAt(rest, best)[m] < |row| && RemoveAt(rest, best)[m] !in indices + [rest[best]]
  {
    var b := rest[best];
    var indices', rest' := indices + [b], RemoveAt(rest, best);
    forall m | 0 <= m < |rest'| ensures rest'[m] < |row| && rest'[m] !in indices' {
      var k := if m < best then m else m + 1;
      assert rest'[m] == rest[k] && k != best;
    }
  }

  lemma RestDistinctStep(rest: seq<nat>, best: nat)
    requires best < |rest| && forall m, m' :: 0 <= m < m' < |rest| ==> rest[m] != rest[m']
    ensures forall m, m' :: 0 <= m < m' < |RemoveAt(rest, best)| ==> RemoveAt(rest, best)[m] != RemoveAt(rest, best)[m']
  {
    var rest' := RemoveAt(rest, best);
    forall m, m' | 0 <= m < m' < |rest'| ensures rest'[m] != rest'[m'] {
      var k, k' := if m < best then m else m + 1, if m' < best then m' else m' + 1;
      assert rest'[m] == rest[k] && rest'[m'] == rest[k'] && k < k';
    }
  }

  lemma CoverageStep(row: seq<real>, indices: seq<nat>, rest: seq<nat>, best: nat)
    requires best < |rest| && forall c :: 0 <= c < |row| && c !in indices ==> c in rest
    ensures forall c :: 0 <= c < |row| && c !in indices + [rest[best]] ==> c in RemoveAt(rest, best)
  {
    var b := rest[best];
    forall c | 0 <= c < |row| && c !in indices + [b] ensures c in RemoveAt(rest, best) {
      assert c in rest && c != b;
    }
  }

  lemma ComplementStep(row: seq<real>, indices: seq<nat>, rest: seq<nat>, best: nat)
    requires Complement(row, indices, rest) && best < |rest|
    ensures Complement(row, indices + [rest[best]], RemoveAt(rest, best))
  {
    RestStep(row, indices, rest, best);
    RestDistinctStep(rest, best);
    CoverageStep(row, indices, rest, best);
  }

  lemma RankedDistinctStep(row: seq<real>, indices: seq<nat>, rest: seq<nat>, best: nat)
    requires RankedDistinct(row, indices) && IsBest(row, rest, best)
    requires rest[best] !in indices && Dominates(row, indices, rest)
    ensures RankedDistinct(row, indices + [rest[best]])
  {
    var b := rest[best];
    var indices' := indices + [b];
    var n := |indices|;
    forall i, j | 0 <= i < j < |indices'|
      ensures indices'[i] != indices'[j] && row[indices'[i]] >= row[indices'[j]]
    {
      if j == n {
        assert indices'[i] == indices[i] && indices'[j] == b;
      } else {
        assert indices'[i] == indices[i] && indices'[j] == indices[j];
      }
    }
  }

  lemma DominatesStep(row: seq<real>, indices: seq<nat>, rest: seq<nat>, best: nat)
    requires RankedDistinct(row, indices) && IsBest(row, rest, best)
    requires Dominates(row, indices, rest)
    ensures Dominates(row, indices + [rest[best]], RemoveAt(rest, best))
  {
    var indices', rest' := indices + [rest[best]], RemoveAt(rest, best);
    forall j, m | 0 <= j < |indices'| && 0 <= m < |rest'| ensures row[indices'[j]] >= row[rest'[m]] {
      var k := if m < best then m else m + 1;
      assert rest'[m] == rest[k];
      if j < |indices| {
        assert indices'[j] == indices[j];
      }
    }
  }

  /** Taking a best remaining position keeps the selection state. */
  lemma SelectingStep(row: seq<real>, indices: seq<nat>, rest: seq<nat>, best: nat)
    requires Selecting(row, indices, rest) && IsBest(row, rest, best)
    ensures Selecting(row, indices + [rest[best]], RemoveAt(rest, best))
  {
    ComplementStep(row, indices, rest, best);
    RankedDistinctStep(row, indices, rest, best);
    DominatesStep(row, indices, rest, best);
  }

  /** torch.topk on one row: the positions of the `k` largest values, in
      non-increasing order of value, and those values. */
  method TopK(row: seq<real>, k: nat) returns (indices: seq<nat>, values: seq<real>)
    requires k <= |row|
    ensures IsTopK(row, indices, k)
    ensures |values| == k && forall j :: 0 <= j < k ==> values[j] == row[indices[j]]
  {
    indices, values := [], [];
    var rest: seq<nat> := seq(|row|, c => c);  // the positions not taken yet
    forall c | 0 <= c < |row| ensures c in rest {
      assert rest[c] == c;
    }
    while |indices| < k
      invariant |indices| <= k && Selecting(row, indices, rest)
      invariant |values| == |indices| && forall j :: 0 <= j < |indices| ==> values[j] == row[indices[j]]
      decreases k - |indices|
    {
      var best := BestRemaining(row, rest);
      SelectingStep(row, indices, rest, best);
      var b := rest[best];
      indices, values := indices + [b], values + [row[b]];
      rest := RemoveAt(rest, best);
    }
    forall j, c | 0 <= j < |indices| && 0 <= c < |row| && c !in indices
      ensures row[indices[j]] >= row[c]
    {
      var m :| 0 <= m < |rest| && rest[m] == c;
    }
  }

  /** torch.topk on every row of a `rows` x `cols` matrix. */
  method TopKRows(sims: seq<seq<real>>, cols: nat, k: nat) returns (indices: seq<seq<nat>>, values: seq<seq<real>>)
    requires forall q :: 0 <= q < |sims| ==> |sims[q]| == cols
    requires k <= cols
    ensures |indices| == |values| == |sims|
    ensures forall q :: 0 <= q < |sims| ==>
      && IsTopK(sims[q], indices[q], k)
      && |values[q]| == k
      && forall j :: 0 <= j < k ==> values[q][j] == sims[q][indices[q][j]]
  {
    indices, values := [], [];
    for q := 0 to |sims|
      invariant |indices| == |values| == q
      invariant forall p :: 0 <= p < q ==>
        && IsTopK(sims[p], indices[p], k)
        && |values[p]| == k
        && forall j :: 0 <= j < k ==> values[p][j] == sims[p][indices[p][j]]
    {
      var idx, vals := TopK(sims[q], k);
      indices, values := indices + [idx], values + [vals];
    }
  }
}
