/** Optional values, standing for `std::optional` and for the "found or not"
    booleans that the renderer returns beside an out-parameter. */
module Wrappers {

  datatype Option<+T> = None | Some(value: T)
}
