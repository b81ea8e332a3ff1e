/** The optional-value datatype used for lookups and parses that may fail. */
module Wrappers {

  /** `None` where the source returns `None`/`undefined` or gives up early. */
  datatype Option<+T> = None | Some(value: T)
}
