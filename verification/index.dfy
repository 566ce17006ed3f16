/** The index model (SSCModel): the sparse matrix of the indexed strings,
    where it resides, the fitted vectoriser and the strings themselves;
    how it is built, placed on a device, dumped and loaded. */
module Index {
  import opened Failures
  import opened Sparse

  /** Where a tensor's data lives: host memory or a numbered CUDA device. */
  datatype Device = Host | Cuda(ordinal: nat)

  /** The fitted vectoriser, reduced to its frozen vocabulary (trigram to
      feature column). Its trigram extraction and weighting are library code. */
  datatype Vectorizer = Vectorizer(vocabulary: map<string, nat>)

  /** A torch sparse tensor: its value and its device. */
  datatype Tensor = Tensor(value: Coo, device: Device)

  /** What dump writes and load reads: the (tensor, vectoriser, strings) triple. */
  datatype Pickled = Pickled(sparseT: Tensor, vectorizer: Vectorizer, strings: seq<string>)

  class SSCModel {
    var matrix: Coo
    var residency: Device
    var vectorizer: Vectorizer
    var strings: seq<string>

    /** Every element lies inside the matrix's shape, and every row of the
        matrix names one of the strings (row d is strings[d]). */
    ghost predicate Valid()
      reads this
    {
      WellFormed(matrix) && matrix.rows <= |strings|
    }

    /** __init__ binds the three parts as given. */
    constructor (sparseT: Tensor, vectorizer: Vectorizer, strings: seq<string>)
      ensures matrix == sparseT.value && residency == sparseT.device
      ensures this.vectorizer == vectorizer && this.strings == strings
    {
      matrix := sparseT.value;
      residency := sparseT.device;
      this.vectorizer := vectorizer;
      this.strings := strings;
    }

    /** Places the matrix on a CUDA device; nothing else changes. */
    method Cuda(ordinal: nat)
      modifies this`residency
      ensures residency == Device.Cuda(ordinal)
      ensures matrix == old(matrix) && vectorizer == old(vectorizer) && strings == old(strings)
      ensures Valid() == old(Valid())
    {
      residency := Device.Cuda(ordinal);
    }

    /** The triple dump writes: the matrix moved to the host, the vectoriser
        and the strings, in that order. The model itself is not changed. */
    method Dump() returns (p: Pickled)
      ensures p.sparseT == Tensor(matrix, Host)
      ensures p.vectorizer == vectorizer && p.strings == strings
    {
      p := Pickled(Tensor(matrix, Host), vectorizer, strings);
    }

    /** load: a new model built from the three parts of the triple, in order. */
    static method Load(p: Pickled) returns (m: SSCModel)
      ensures fresh(m)
      ensures m.matrix == p.sparseT.value && m.residency == p.sparseT.device
      ensures m.vectorizer == p.vectorizer && m.strings == p.strings
    {
      m := new SSCModel(p.sparseT, p.vectorizer, p.strings);
    }
  }

  /** save_index followed by load_index, without the file: the loaded model
      holds the same matrix, vectoriser and strings, resides on the host
      whatever the original's residency, and is valid exactly when the
      original is. */
  method Reload(model: SSCModel) returns (loaded: SSCModel)
    ensures fresh(loaded)
    ensures loaded.matrix == model.matrix && loaded.residency == Host
    ensures loaded.vectorizer == model.vectorizer && loaded.strings == model.strings
    ensures loaded.Valid() == model.Valid()
  {
    var p := model.Dump();
    loaded := SSCModel.Load(p);
  }

  /** The vectoriser's fit_transform output for `strings`: one row per
      string, one column per vocabulary entry. */
  predicate IsFitOutput(strings: seq<string>, vectorizer: Vectorizer, vectorized: seq<Entry>) {
    Fits(vectorized, |strings|, |vectorizer.vocabulary|)
  }

  /** build_index: the fitted matrix converted with scipy2torch_sparse, on
      the host, bound to the vectoriser and the strings. Fitting fails when
      no string yields a trigram. The inferred row count leaves out trailing
      strings without a single trigram. */
  method BuildIndex(strings: seq<string>, vectorizer: Vectorizer, vectorized: seq<Entry>)
    returns (r: Result<SSCModel>)
    requires IsFitOutput(strings, vectorizer, vectorized)
    ensures r.Err? <==> |vectorizer.vocabulary| == 0 || ToTorchSparse(vectorized).Err?
    ensures r.Err? ==> r.error == if |vectorizer.vocabulary| == 0 then EmptyVocabulary else LengthMismatch
    ensures r.Ok? ==> fresh(r.value) && r.value.Valid()
    ensures r.Ok? ==> r.value.matrix == ToTorchSparse(vectorized).value && r.value.residency == Host
    ensures r.Ok? ==> r.value.vectorizer == vectorizer && r.value.strings == strings
    ensures r.Ok? ==> r.value.matrix.cols <= |vectorizer.vocabulary|
  {
    if |vectorizer.vocabulary| == 0 {
      return Err(EmptyVocabulary);
    }
    var sparseT := ToTorchSparse(vectorized);
    if sparseT.Err? {
      return Err(sparseT.error);
    }
    var model := new SSCModel(Tensor(sparseT.value, Host), vectorizer, strings);
    r := Ok(model);
  }

  /** build_index with the shape stated: one matrix row for every string and
      one column for every vocabulary entry. */
  method BuildIndexExplicitShape(strings: seq<string>, vectorizer: Vectorizer, vectorized: seq<Entry>)
    returns (r: Result<SSCModel>)
    requires IsFitOutput(strings, vectorizer, vectorized)
    ensures r.Err? <==> |vectorizer.vocabulary| == 0 || HasExplicitZero(vectorized)
    ensures r.Err? ==> r.error == if |vectorizer.vocabulary| == 0 then EmptyVocabulary else LengthMismatch
    ensures r.Ok? ==> fresh(r.value) && r.value.Valid() && r.value.residency == Host
    ensures r.Ok? ==> r.value.matrix == Coo(|strings|, |vectorizer.vocabulary|, vectorized)
    ensures r.Ok? ==> r.value.vectorizer == vectorizer && r.value.strings == strings
  {
    if |vectorizer.vocabulary| == 0 {
      return Err(EmptyVocabulary);
    }
    var sparseT := FromCoo(vectorized, |strings|, |vectorizer.vocabulary|);
    if sparseT.Err? {
      return Err(sparseT.error);
    }
    var model := new SSCModel(Tensor(sparseT.value, Host), vectorizer, strings);
    r := Ok(model);
  }
}
