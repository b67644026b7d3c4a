/** The optional-value wrapper used for nullable and absent fields. */
module Wrappers {

  /** `None` stands for a JSON `null` or an absent key, `Some` for a present value. */
  datatype Option<+T> = None | Some(value: T)
}
