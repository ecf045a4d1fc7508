/** Python's `None`-or-value, used for the results that the monitor turns into
    "nothing this cycle" and for optional inputs such as the bot's own IP. */
module Wrappers {

  datatype Option<+T> = None | Some(value: T)
}
