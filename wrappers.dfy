/** Optional values: `None` stands for "no value", here the end of the player's input. */
module Wrappers {

  datatype Option<+T> = None | Some(value: T)
}
