/** Optional values, shared by the converters and the local cache. */
module Wrappers {

  /** `None` stands for an absent value: `undefined`, or a conversion that threw. */
  datatype Option<+T> = None | Some(value: T)
}
