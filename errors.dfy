/** Failure values of the layout pipeline. Every panic of the original program
    (a failed `unwrap`, an out-of-range index, an integer underflow in a debug
    build, an explicit `panic!`) becomes an `Err` carrying one of these. */
module Errors {

  datatype Error =
    | InvalidIdentifier   // the low part of an ID is 0, so `id % 10^12 - 1` underflows
    | IndexOutOfRange     // a decoded (snapshot, index) pair is outside a forest array
    | DepthExceeded       // recursion went deeper than the number of snapshots
    | TooManyProgenitors  // the sibling walk of the reorder passed its iteration cap
    | TooWide             // the layout handed out more columns than its cap
    | SnapshotUnderflow   // `snap - prog_snap` underflowed: a progenitor is later than its descendant
    | ShapeMismatch       // a pixel lies outside the raster it is scattered into

  datatype Result<+T> = Ok(value: T) | Err(error: Error) {
    predicate IsFailure() { Err? }

    function PropagateFailure<U>(): Result<U>
      requires Err?
    {
      Err(error)
    }

    function Extract(): T
      requires Ok?
    {
      value
    }
  }

  datatype Option<+T> = None | Some(value: T)
}
