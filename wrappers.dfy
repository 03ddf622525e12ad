/** The optional value used for a candle whose timestamp was never set. */
module Wrappers {

  datatype Option<+T> = None | Some(value: T)
}
