/** Optional values: `None` stands for Python's `None` returned by the
    removal operations when nothing was removed, and for a rejected
    priority response. */
module Wrappers {

  datatype Option<+T> = None | Some(value: T)
}
