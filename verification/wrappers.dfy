/** An optional value; `None` is a rejected remote call. */
module Wrappers {

  /** `None` stands for a rejected promise (transport or parse failure); `Some` for a resolved one. */
  datatype Option<+T> = None | Some(value: T)
}
