# simstring-cuda in Dafny

A verified model of the core of simstring-cuda, a small approximate string
lookup library. It indexes a list of strings as a sparse matrix of character
trigram weights (rows are strings, columns are vocabulary trigrams). A batch
of queries is scored against the index by one sparse-dense matrix product,
and the top-k (string, similarity) pairs are returned for each query.

The model covers the logic of `simstringcuda/ssc.py` between the library
calls. The vectoriser's output is an input to the model: a list of stored
(row, column, value) elements. Scores are Dafny `real`s.

- `Failures` (failures.dfy): the errors the library calls raise, and the
  `Result` of an operation that can fail.
- `Sparse` (sparse.dfy): `scipy2torch_sparse` as `ToTorchSparse`, which
  infers the shape as one past the largest row and column used. Also the
  explicit-shape constructor `FromCoo`, and the dense form and transpose.
- `Scoring` (scoring.dfy): padding the query matrix with zero feature rows
  (`PadFeatures`), `torch.sparse.mm` (`SparseMM`), the transposed similarity
  matrix (`Similarities`), and the specification of a score (`Similarity`):
  the sum over features f of `index[d][f] * query[f]`.
- `Selection` (selection.dfy): `torch.topk` as a specification (`IsTopK`) and
  a selection procedure that meets it (`TopK`, `TopKRows`).
- `Query` (query.dfy): `lookup`. `Rank` holds its shared steps (pad,
  multiply, top-k, assemble). `Lookup` is the code as written.
  `LookupAllQueries` is the corrected form (see Findings).
- `Lengths` (lengths.dfy): `get_lengths`.
- `Index` (index.dfy): the `SSCModel` class with its four fields (matrix,
  residency, vectoriser, strings). Also `cuda`, `dump`, `load`, the
  save-then-load round trip, and `build_index`.

The code infers both matrix shapes and does not clamp `topk`: `torch.topk`
then raises, modelled as `TopkOutOfRange`.

## Model

| member | source | states |
|---|---|---|
| `Sparse.Extent` | simstringcuda/ssc.py:56-57 | The inferred length of a dimension is greater than every index used. It is either 0 or one past an index that is used, so it is the smallest length that holds them all. |
| `Sparse.ToTorchSparse` | simstringcuda/ssc.py:54-58 | Fails with a length mismatch exactly when a stored value is an explicit zero, because `nonzero()` skips it and `data` keeps it. Otherwise it keeps exactly the stored elements. The shape holds every element and is no larger than any shape that does. The last row and the last column each hold an element. |
| `Sparse.FromCoo` | simstringcuda/ssc.py:54-58 | The corrected conversion with a stated shape. It succeeds exactly when no explicit zero is stored and every element fits the shape. The result has that shape and the stored elements. |
| `Sparse.EntrySumOfDistinct` | simstringcuda/ssc.py:125 | With distinct coordinates, the dense value at a coordinate is the one value stored there, or zero when nothing is stored there. |
| `Sparse.DensifyKeepsEntries` | simstringcuda/ssc.py:54-58 | After conversion and `to_dense`, every stored element is at its coordinate with its value. Every nonzero dense position is one of the stored elements, so no triple is added or lost. |
| `Sparse.InferredShapeDropsEmptyLastRow` | simstringcuda/ssc.py:54-58 | For every input whose intended last row holds no element, the inferred matrix has fewer rows than intended. The stated shape keeps all of them. |
| `Sparse.Densify` | simstringcuda/ssc.py:125 | `.to_dense()` gives a rows x cols matrix in which each position holds the sum of the values stored there, since torch adds duplicate coordinates. |
| `Sparse.Transpose` | simstringcuda/ssc.py:125 | `.T` turns a rows x cols matrix into a cols x rows matrix, with element (j, i) equal to the input's (i, j). |
| `Scoring.PadFeatures` | simstringcuda/ssc.py:126-130 | After padding, the query matrix has `max_features` rows, or its own row count when that is larger. It keeps `q_count` columns. The original rows are unchanged and every appended row is all zero. |
| `Scoring.PaddedColumnsScoreAlike` | simstringcuda/ssc.py:128-130 | Padding changes no score: a padded query column has the same similarity row as the unpadded one. |
| `Scoring.RowProductIsDot` | simstringcuda/ssc.py:133 | The sparse product over the stored elements of row d equals the dense inner product of row d with the query column. |
| `Scoring.SparseMM` | simstringcuda/ssc.py:133 | `torch.sparse.mm(index, b)` is an index rows x bCols matrix. Entry (d, c), the sum over the stored elements of row d of value times `b[col][c]`, equals the inner product of the dense row d with column c of b. |
| `Scoring.Similarities` | simstringcuda/ssc.py:133 | `mm(index, query).T` has shape (q_count, db rows). Its row q is the similarity of query column q with every db row: the sum over features f of `index[d][f] * query[f][q]`. |
| `Scoring.SimilarityNonnegative` | simstringcuda/ssc.py:133 | When no index or query weight is negative, no similarity is negative. |
| `Selection.TopK` | simstringcuda/ssc.py:134 | For k no larger than the row, returns k distinct in-range positions whose values are non-increasing. Each selected value is at least every value not selected. The values returned are the row's values at those positions. |
| `Selection.TopKRows` | simstringcuda/ssc.py:134 | `torch.topk` on a matrix does this, row by row, with one result per row in row order. |
| `Query.Rank` | simstringcuda/ssc.py:126-140 | Fails exactly when the query is wider than the index (`sparse.mm`) or when `topk` is negative or larger than the index's row count (`topk`). Otherwise it returns one list per query column, in order. Each list holds `topk` pairs (`strings[i]`, similarity of i) for distinct i, ranked by non-increasing similarity, and none is beaten by a string left out. |
| `Query.Lookup` | simstringcuda/ssc.py:111-140 | As written: fails when the converted query has an explicit zero, or as `Rank` does. Otherwise it returns one ranked list per row of the inferred query matrix. Each list is ranked by that query's similarity with every index row. |
| `Query.LookupAllQueries` | simstringcuda/ssc.py:111-140 | Corrected: with the query matrix shaped (number of queries, index width), it fails only on an explicit zero, on an element outside that shape, or on an out-of-range `topk`. Otherwise it returns exactly one ranked list per query. |
| `Query.TrailingUnmatchedQueryDropped` | simstringcuda/ssc.py:125-127 | Two queries, of which only the first shares a trigram with the vocabulary, give a one-row inferred query matrix, so `Lookup` returns one list. A batch with no shared trigram gives a 0 x 0 matrix and no list. |
| `Lengths.GetLengths` | simstringcuda/ssc.py:76-83 | The keys of the returned map are exactly the distinct string lengths. Each value is the smallest index i with `len(strings[i])` equal to the key. |
| `Lengths.FirstOccurrenceMapUnique` | simstringcuda/ssc.py:76-83 | Only one map meets that description, so the result is determined by the input. |
| `Index.SSCModel.constructor` | simstringcuda/ssc.py:37-40 | `__init__` stores the tensor's matrix and device, the vectoriser and the strings, as given. |
| `Index.SSCModel.Cuda` | simstringcuda/ssc.py:42-44 | Only the residency changes, to the given CUDA device. The matrix, vectoriser and strings are untouched, and validity is kept. |
| `Index.SSCModel.Dump` | simstringcuda/ssc.py:46-47 | Emits (matrix moved to host, vectoriser, strings) in that order, whatever the current residency. |
| `Index.SSCModel.Load` | simstringcuda/ssc.py:49-51 | Builds a fresh model from the three parts of the triple, in the same order. |
| `Index.Reload` | simstringcuda/ssc.py:85-109 | Save followed by load gives a fresh model with the same matrix, vectoriser and strings, residing on the host. It is valid exactly when the original is. |
| `Index.BuildIndex` | simstringcuda/ssc.py:60-73 | As written: fitting fails when the vocabulary is empty (no string has a trigram), and conversion fails on an explicit zero. Otherwise the model holds the inferred-shape conversion of the fitted matrix, on the host, with the vectoriser and strings. Its rows never outnumber the strings, and its columns never outnumber the vocabulary. |
| `Index.BuildIndexExplicitShape` | simstringcuda/ssc.py:60-73 | Corrected: it fails in the same cases as `BuildIndex`. Otherwise the matrix has exactly one row per string and one column per vocabulary entry. |

## Left out

- The vectoriser (`TfidfVectorizer` fit and transform, ssc.py:70-71 and 124) is library code: trigram extraction, case and whitespace handling, and L2 normalisation. Its output (the stored elements) is a parameter of `BuildIndex`, `Lookup` and `LookupAllQueries`, and the vectoriser itself is reduced to its vocabulary.
- Floating point: scores are exact reals. Self-similarity being 1.0 and scores being at most 1 depend on the library's normalisation and on rounding, so they are not stated. Only non-negativity is stated.
- Device transfer (`.cuda(*args)` and `.to(device)`, ssc.py:44 and 132) is reduced to a residency value. An unavailable device (a CUDA error) is not modelled: `Cuda` always succeeds. Since residency is not an input of `Lookup`, a model's ranking specification is the same on every device.
- Pickle encoding and file I/O in `save_index` and `load_index` are not modelled. `Reload` models their composition on the (tensor, vectoriser, strings) triple.
- setup.py holds packaging metadata only.
- Query.Lookup, Query.LookupAllQueries and Query.Rank require the index to have no more rows than there are strings (`model.Valid()`, or `index.rows <= |strings|`). A model built by `build_index` or loaded from its dump meets this. A model made directly from a larger matrix may raise IndexError at ssc.py:139: it does when a selected position is at least `len(strings)`. That case is not modelled.
- Query.Lookup and Query.LookupAllQueries take `topk` as an argument. The default `topk=10` of `lookup` (ssc.py:111) is not modelled: a call without `topk` is the call with 10.
- Query.Lookup takes the vectorised queries instead of the query strings, because the vectoriser is library code.
- Selection.TopK fixes no order among equal scores, as `torch.topk` does not. Any tie order meets the specification.

## Findings

| source | as written | input that shows it | evidently intended | confidence | as-written member | corrected member |
|---|---|---|---|---|---|---|
| simstringcuda/ssc.py:125-127 | The number of result lists is the inferred row count of the query matrix: one past the last query that shares a trigram with the vocabulary. | Queries ["cat", "xyz"] against an index of ["cat"] vectorise to one element in row 0, so one list comes back. ["xyz"] alone returns no list. | One list per query string, as the docstring at ssc.py:120-121 says. | high; not executed | `Query.Lookup`, `Query.TrailingUnmatchedQueryDropped` | `Query.LookupAllQueries` |
| simstringcuda/ssc.py:72 | The index has rows only up to the last string with a trigram. Trailing strings without one (shorter than three characters) are cut from the matrix. | Strings ["cat", "a"] give a one-row matrix, so `lookup(queries, idx, 2)` fails in `torch.topk` although 2 strings are indexed. | One matrix row per string, so that any `topk` up to the number of strings is answered. | medium; not executed | `Index.BuildIndex`, `Sparse.InferredShapeDropsEmptyLastRow` | `Index.BuildIndexExplicitShape` |
