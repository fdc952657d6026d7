/** An optional value: a grid cell that may be a leading blank, a route
    parameter that may be missing, a callback that may not fire. */
module Opt {

  datatype Option<+T> = None | Some(value: T)
}
