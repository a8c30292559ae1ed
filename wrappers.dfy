/** The optional value used for fields a forum record may lack and for
    "no message to send". */
module Wrappers {
  datatype Option<+T> = None | Some(value: T)
}
