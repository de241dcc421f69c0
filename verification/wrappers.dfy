/** The optional value used for the drag slot and for "first task with this id". */
module Wrappers {

  datatype Option<+T> = None | Some(value: T)
}
