/** Small shared vocabulary: an optional value. */
module Basics {

  datatype Option<+T> = None | Some(value: T)

}
