/** Coordinate-format sparse matrices: the conversion of the vectoriser's
    output into a torch sparse tensor (scipy2torch_sparse), its dense form
    and its transpose. */
module Sparse {
  import opened Failures

  /** One stored element of a sparse matrix. */
  datatype Entry = Entry(row: nat, col: nat, val: real)

  /** A `rows` x `cols` sparse matrix holding the elements `entries`. */
  datatype Coo = Coo(rows: nat, cols: nat, entries: seq<Entry>)

  /** Every element lies inside a `rows` x `cols` shape. */
  predicate Fits(es: seq<Entry>, rows: nat, cols: nat) {
    forall i :: 0 <= i < |es| ==> es[i].row < rows && es[i].col < cols
  }

  predicate WellFormed(m: Coo) {
    Fits(m.entries, m.rows, m.cols)
  }

  /** Some stored value is an explicit zero, which scipy's nonzero() skips. */
  predicate HasExplicitZero(es: seq<Entry>) {
    exists i :: 0 <= i < |es| && es[i].val == 0.0
  }

  /** No two elements share a coordinate (true of a canonical CSR matrix). */
  predicate DistinctCoordinates(es: seq<Entry>) {
    forall a, b :: 0 <= a < b < |es| ==> es[a].row != es[b].row || es[a].col != es[b].col
  }

  function RowsOf(es: seq<Entry>): (ks: seq<nat>)
    ensures |ks| == |es|
    ensures forall i :: 0 <= i < |es| ==> ks[i] == es[i].row
  {
    seq(|es|, i requires 0 <= i < |es| => es[i].row)
  }

  function ColsOf(es: seq<Entry>): (ks: seq<nat>)
    ensures |ks| == |es|
    ensures forall i :: 0 <= i < |es| ==> ks[i] == es[i].col
  {
    seq(|es|, i requires 0 <= i < |es| => es[i].col)
  }

  /** The length torch infers for one dimension of a sparse tensor built
      without a size: one past the largest index used, 0 when none is. */
  function Extent(ks: seq<nat>): (n: nat)
    ensures forall i :: 0 <= i < |ks| ==> ks[i] < n
    ensures n == 0 || exists i :: 0 <= i < |ks| && ks[i] == n - 1
  {
    if ks == [] then 0
    else
      var rest := Extent(ks[1..]);
      assert rest > 0 ==> exists i :: 0 <= i < |ks| && ks[i] == rest - 1 by {
        if rest > 0 {
          var i :| 0 <= i < |ks[1..]| && ks[1..][i] == rest - 1;
          assert ks[i + 1] == rest - 1;
        }
      }
      if ks[0] + 1 >= rest then ks[0] + 1 else rest
  }

  /** scipy2torch_sparse: the nonzero coordinates of the stored matrix are
      paired with its stored values, and the shape is inferred from the
      largest row and column used. When an explicit zero is stored the two
      tensors differ in length and torch refuses them. */
  function ToTorchSparse(stored: seq<Entry>): (r: Result<Coo>)
    ensures r.Err? <==> HasExplicitZero(stored)
    ensures r.Err? ==> r.error == LengthMismatch
    ensures r.Ok? ==> r.value.entries == stored && WellFormed(r.value)
    ensures r.Ok? ==> forall rows: nat, cols: nat {:trigger Fits(stored, rows, cols)} ::
      Fits(stored, rows, cols) ==> r.value.rows <= rows && r.value.cols <= cols
    ensures r.Ok? && r.value.rows > 0 ==> exists i :: 0 <= i < |stored| && stored[i].row == r.value.rows - 1
    ensures r.Ok? && r.value.cols > 0 ==> exists i :: 0 <= i < |stored| && stored[i].col == r.value.cols - 1
  {
    if HasExplicitZero(stored) then Err(LengthMismatch)
    else
      var rows, cols := RowsOf(stored), ColsOf(stored);
      assert forall R: nat, C: nat {:trigger Fits(stored, R, C)} ::
        Fits(stored, R, C) ==> Extent(rows) <= R && Extent(cols) <= C by {
        forall R: nat, C: nat | Fits(stored, R, C) ensures Extent(rows) <= R && Extent(cols) <= C {
          if Extent(rows) > 0 {
            var i :| 0 <= i < |rows| && rows[i] == Extent(rows) - 1;
            assert stored[i].row < R;
          }
          if Extent(cols) > 0 {
            var i :| 0 <= i < |cols| && cols[i] == Extent(cols) - 1;
            assert stored[i].col < C;
          }
        }
      }
      Ok(Coo(Extent(rows), Extent(cols), stored))
  }

  /** The same conversion with the shape stated rather than inferred, as
      torch.sparse_coo_tensor does when it is given a size. */
  function FromCoo(stored: seq<Entry>, rows: nat, cols: nat): (r: Result<Coo>)
    ensures r.Ok? <==> !HasExplicitZero(stored) && Fits(stored, rows, cols)
    ensures r.Err? ==> r.error == (if HasExplicitZero(stored) then LengthMismatch else ShapeMismatch)
    ensures r.Ok? ==> r.value.rows == rows && r.value.cols == cols && r.value.entries == stored
  {
    if HasExplicitZero(stored) then Err(LengthMismatch)
    else if !Fits(stored, rows, cols) then Err(ShapeMismatch)
    else Ok(Coo(rows, cols, stored))
  }

  /** `a` has `rows` rows of `cols` values each. */
  predicate IsMatrix(a: seq<seq<real>>, rows: nat, cols: nat) {
    |a| == rows && forall i :: 0 <= i < rows ==> |a[i]| == cols
  }

  /** The sum of the values stored at (i, j); torch's to_dense adds duplicates. */
  function EntrySum(es: seq<Entry>, i: nat, j: nat): real {
    if es == [] then 0.0
    else (if es[0].row == i && es[0].col == j then es[0].val else 0.0) + EntrySum(es[1..], i, j)
  }

  /** Row `i` of the dense form of the elements `es`, `n` columns wide. */
  function DenseRow(es: seq<Entry>, i: nat, n: nat): (u: seq<real>)
    ensures |u| == n && forall j :: 0 <= j < n ==> u[j] == EntrySum(es, i, j)
  {
    seq(n, (j: nat) => EntrySum(es, i, j))
  }

  /** The dense form of `m` (torch's to_dense): each position holds the sum
      of the values stored there. */
  function Densify(m: Coo): (d: seq<seq<real>>)
    ensures IsMatrix(d, m.rows, m.cols)
    ensures forall i, j :: 0 <= i < m.rows && 0 <= j < m.cols ==> d[i][j] == EntrySum(m.entries, i, j)
  {
    seq(m.rows, (i: nat) => DenseRow(m.entries, i, m.cols))
  }

  /** The transpose of an `|a|` x `cols` matrix. */
  function Transpose(a: seq<seq<real>>, cols: nat): (t: seq<seq<real>>)
    requires IsMatrix(a, |a|, cols)
    ensures IsMatrix(t, cols, |a|)
    ensures forall j, i :: 0 <= j < cols && 0 <= i < |a| ==> t[j][i] == a[i][j]
  {
    seq(cols, j requires 0 <= j < cols => seq(|a|, i requires 0 <= i < |a| => a[i][j]))
  }

  /** With distinct coordinates, the sum at a coordinate is the one value
      stored there, or zero when nothing is stored there. */
  lemma {:induction false} EntrySumOfDistinct(es: seq<Entry>, i: nat, j: nat)
    requires DistinctCoordinates(es)
    ensures forall k :: 0 <= k < |es| && es[k].row == i && es[k].col == j ==> EntrySum(es, i, j) == es[k].val
    ensures (forall k :: 0 <= k < |es| ==> es[k].row != i || es[k].col != j) ==> EntrySum(es, i, j) == 0.0
  {
    if es != [] {
      var tail := es[1..];
      assert DistinctCoordinates(tail) by {
        forall a, b | 0 <= a < b < |tail| ensures tail[a].row != tail[b].row || tail[a].col != tail[b].col {
          assert tail[a] == es[a + 1] && tail[b] == es[b + 1];
        }
      }
      EntrySumOfDistinct(tail, i, j);
      forall k | 0 <= k < |es| && es[k].row == i && es[k].col == j ensures EntrySum(es, i, j) == es[k].val {
        if k == 0 {
          forall m | 0 <= m < |tail| ensures tail[m].row != i || tail[m].col != j {
            assert tail[m] == es[m + 1];
          }
        } else {
          assert tail[k - 1] == es[k];
        }
      }
      if forall k :: 0 <= k < |es| ==> es[k].row != i || es[k].col != j {
        forall m | 0 <= m < |tail| ensures tail[m].row != i || tail[m].col != j {
          assert tail[m] == es[m + 1];
        }
      }
    }
  }

  /** In the dense form of a matrix without duplicate coordinates, each
      stored value sits at its coordinate and every other position is zero. */
  lemma DenseFormHoldsEntries(m: Coo)
    requires WellFormed(m) && DistinctCoordinates(m.entries)
    ensures forall k :: 0 <= k < |m.entries| ==>
      Densify(m)[m.entries[k].row][m.entries[k].col] == m.entries[k].val
    ensures forall i, j :: 0 <= i < m.rows && 0 <= j < m.cols && Densify(m)[i][j] != 0.0 ==>
      exists k :: 0 <= k < |m.entries| && m.entries[k] == Entry(i, j, Densify(m)[i][j])
  {
    var es, d := m.entries, Densify(m);
    forall k | 0 <= k < |es| ensures d[es[k].row][es[k].col] == es[k].val {
      EntrySumOfDistinct(es, es[k].row, es[k].col);
    }
    forall i, j | 0 <= i < m.rows && 0 <= j < m.cols && d[i][j] != 0.0
      ensures exists k :: 0 <= k < |es| && es[k] == Entry(i, j, d[i][j])
    {
      EntrySumOfDistinct(es, i, j);
      var k :| 0 <= k < |es| && es[k].row == i && es[k].col == j;
      assert es[k] == Entry(i, j, d[i][j]);
    }
  }

  /** scipy2torch_sparse keeps every stored element and adds none: in the
      dense form each stored value sits at its coordinate, and every other
      position of the inferred shape is zero. */
  lemma DensifyKeepsEntries(stored: seq<Entry>)
    requires !HasExplicitZero(stored) && DistinctCoordinates(stored)
    ensures ToTorchSparse(stored).Ok?
    ensures var m := ToTorchSparse(stored).value;
      forall k :: 0 <= k < |stored| ==> Densify(m)[stored[k].row][stored[k].col] == stored[k].val
    ensures var m := ToTorchSparse(stored).value;
      forall i, j :: 0 <= i < m.rows && 0 <= j < m.cols && Densify(m)[i][j] != 0.0 ==>
        exists k :: 0 <= k < |stored| && stored[k] == Entry(i, j, Densify(m)[i][j])
  {
    DenseFormHoldsEntries(ToTorchSparse(stored).value);
  }

  /** Shape inference loses a last row that holds no element: when `n` rows
      are meant and row n - 1 is empty, the inferred matrix has fewer than
      `n` rows, while the stated shape keeps all `n`. */
  lemma InferredShapeDropsEmptyLastRow(stored: seq<Entry>, n: nat, cols: nat)
    requires !HasExplicitZero(stored) && Fits(stored, n, cols) && n > 0
    requires forall i :: 0 <= i < |stored| ==> stored[i].row != n - 1
    ensures ToTorchSparse(stored).Ok? && ToTorchSparse(stored).value.rows < n
    ensures FromCoo(stored, n, cols) == Ok(Coo(n, cols, stored))
  {
  }
}
