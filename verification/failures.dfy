/** The failures raised by the library calls of the pipeline, and the
    result of an operation that can fail with one of them. */
module Failures {

  datatype Error =
    | LengthMismatch   // torch: the index tensor and the value tensor differ in length
    | ShapeMismatch    // torch: an element or an operand does not fit the shape it is used with
    | TopkOutOfRange   // torch.topk: fewer than zero or more elements than a row has
    | EmptyVocabulary  // the vectoriser's fit: no string yields a single trigram

  datatype Result<T> = Ok(value: T) | Err(error: Error)
}
