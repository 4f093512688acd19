/** Optional values and the error outcome of the pipeline's table operations. */
module Outcomes {

  datatype Option<+T> = None | Some(value: T)

  /**
   * The result of a step that can fail: pandas raises `KeyError` when a
   * selected or renamed column is missing; `missing` names that column.
   */
  datatype Result<+T> = Ok(value: T) | KeyError(missing: string)
}
