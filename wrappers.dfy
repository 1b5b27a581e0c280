/** The optional value the game uses for its cash pickup (`null` in the program). */
module Wrappers {
  datatype Option<+T> = None | Some(value: T)
}
