/** The optional value the bot's helpers return where the JavaScript returns `null`. */
module Wrappers {

  datatype Option<+T> = None | Some(value: T)
}
