/** Results of operations that the source can abort with an out-of-range index. */
module Outcomes {

  /** Either a value, or the index at which a list or array access was out of range
      (the source's IndexOutOfBoundsException / ArrayIndexOutOfBoundsException). */
  datatype Outcome<+T> = Ok(value: T) | IndexOutOfBounds(index: int)
}
