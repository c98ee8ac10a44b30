/**
 * Errors and result wrappers shared by every matcher.
 * The variants are the ones the matchers of the engine return.
 */
module Errors {

  datatype Option<T> = None | Some(value: T)

  datatype Error =
    | OutOfBound
    | Once | Many1 | Between | Times
    | Consume | LitSlice | LitString | Assert | AnchorStart | AnchorEnd | Fail
    | Repeat | Repeat2 | Collect | Separate | Separate2 | SepCollect
    | Array | PairArray | Slice | PairSlice | Vector | PairVector
    | SelectEq | SelectNeq | FromLeBytes | FromBeBytes | FromNeBytes
      /** An error raised by a caller-supplied closure (condition, test, handler, mapper). */
    | User(code: int)

  datatype Result<T> = Ok(value: T) | Err(error: Error)
}
