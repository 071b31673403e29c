/** C#'s `null`: a reference, or a nullable value, that may be absent. */
module Nullable {

  datatype Option<+T> = None | Some(value: T)
}
