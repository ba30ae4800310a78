/** The optional value used wherever the bot's Python returns None or a lookup can fail. */
module Wrappers {

  datatype Option<+T> = None | Some(value: T)
}
