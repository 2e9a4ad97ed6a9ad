/** Optional values: `None` stands for JavaScript's `undefined` / "not found". */
module Wrappers {

  datatype Option<+T> = None | Some(value: T)
}
