/** The optional value used for request parameters that may be absent
    and for the nullable `coffee_price` column. */
module Wrappers {

  datatype Option<+T> = None | Some(value: T)
}
