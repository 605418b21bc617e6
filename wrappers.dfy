/** Optional values, used where the TypeScript code returns `undefined` or `-1`. */
module Wrappers {
  datatype Option<+T> = None | Some(value: T)
}
