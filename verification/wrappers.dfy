/** The optional value used for the miner's "no candidate" and "does not parse" paths. */
module Wrappers {

  datatype Option<+T> = None | Some(value: T)
}
