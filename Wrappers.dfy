/** The conventional optional value, used for the nullable killer name and for
    the optional announcements raised by a kill. */
module Wrappers {
  datatype Option<+T> = None | Some(value: T)
}
