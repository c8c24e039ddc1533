/** The optional-value datatype used where the bot's JavaScript uses `null`
    (a failed fetch, a quote that was already used, an absent index). */
module Wrappers {

  datatype Option<+T> = None | Some(value: T)
}
