/** Option and Result, the two wrappers the dashboard model returns. */
module Wrappers {

  /** `None` stands for pandas' NaN: a mean over no rows, a group with no members. */
  datatype Option<+T> = None | Some(value: T)

  /**
   * The two exceptions the dashboard code can raise. The callbacks raise only
   * the first: an empty dataset gives an empty view, which fails before the
   * ratio is computed. Only the ratio card, taken on its own, gives the second.
   */
  datatype Error =
    | CannotRoundNan   // `round(nan)`: an integer-rounded mean over an empty view
    | ZeroDivision     // `len(dff) / len(df)` with an empty dataset

  datatype Result<+T> = Ok(value: T) | Err(error: Error)
}
