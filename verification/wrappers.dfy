/** The optional value used for a storage slot: `None` stands for the `null`
    the pool writes into a slot it has emptied. */
module Wrappers {

  datatype Option<+T> = None | Some(value: T)
}
