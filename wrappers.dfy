/** Option and Result values, and the Python exceptions the modelled scripts can raise. */
module Wrappers {

  datatype Option<+T> = None | Some(value: T)

  /** An exception raised by the scripts; the model returns it instead of raising. */
  datatype Error =
    | IndexError                  // `iloc[0]` / `iloc[-1]` on an empty selection
    | KeyError(key: string)       // a dictionary lookup with an unknown key
    | ValueError(reason: string)  // a bad unpacking, an invalid date, `pd.concat([])`
    | ZeroNamo                    // a ratio whose NAMO denominator is zero (inf/NaN in floating point)
    | OverflowError               // a `datetime` argument outside the C `int` range
    | TypeError                   // `"<br>".join` of a missing (NaN) common name
    | AttributeError              // `.split` called on a missing (NaN) common name

  datatype Result<+T> = Ok(value: T) | Err(error: Error)
}
