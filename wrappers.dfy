/** The optional value used for the .NET `TryParse` results. */
module Wrappers {

  datatype Option<T> = None | Some(value: T)

}
