/** The Some/None datatype the model uses wherever the dashboard reads a value
    that may be missing: a failed query, a loop that ends without a result. */
module Wrappers {

  datatype Option<+T> = None | Some(value: T)
}
