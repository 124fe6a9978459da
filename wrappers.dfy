/** Option and Result for the values the settings helper returns, and the
    Python exception kinds its operations can raise, which the model returns
    as errors instead. */
module Wrappers {

  datatype Option<+T> = None | Some(value: T)

  datatype Result<+T, +E> = Ok(value: T) | Err(error: E)

  /** The exceptions raised by the modelled code, by their Python names. */
  datatype Error =
    | TypeError          // len() of a non-string, or int() of None or a collection
    | IndexError         // lines[i+1] past the end, or [0] of an empty line
    | AttributeError     // .group(1) called on a failed re.match
    | KeyError           // comments[constant] for a key with no entry
    | UnboundLocalError  // `constant` read before any assignment
}
