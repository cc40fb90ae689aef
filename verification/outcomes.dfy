/**
 * Small outcome datatypes shared by the dashboard's two views.
 */
module Outcomes {

  /** A value that may be absent: `undefined` in the views' TypeScript. */
  datatype Option<+T> = None | Some(value: T)

  /** A computation that either produces a value or reports why it could not. */
  datatype Result<+T, +E> = Ok(value: T) | Err(error: E)

  /**
   * How one awaited request through the shared HTTP client settles: the
   * promise resolves with the parsed response body, or it rejects (a network
   * error or a non-2xx status; the views never distinguish the two).
   */
  datatype Response<+T> = Resolved(data: T) | Rejected
}
