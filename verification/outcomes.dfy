/** Failure-carrying results shared by the whole model. */
module Outcomes {

  /** A value that may be absent: Python's `None` or an actual value. */
  datatype Option<+T> = None | Some(value: T)

  /** The exceptions the modelled code can raise. */
  datatype Error =
    | MissingKey(key: string)  // a dict subscript with an absent key (KeyError)
    | PageWithoutAnnots        // iterating a page whose /Annots entry is absent (TypeError on None)
    | NoTargetFile             // update_form called with neither a template nor a target file
    | RowWiderThanHeader       // a data row with more cells than the header row (IndexError)

  /** Either a value or the exception that aborted the computation. */
  datatype Result<+T> = Success(value: T) | Failure(error: Error)
}
