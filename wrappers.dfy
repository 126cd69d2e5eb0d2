/** The optional value used for properties an iCalendar event may lack. */
module Wrappers {
  datatype Option<+T> = None | Some(value: T)
}
