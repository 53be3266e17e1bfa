/** Optional values: the model of TypeScript's `T | undefined` results. */
module Wrappers {
  datatype Option<+T> = None | Some(value: T)

  /** `{ ...current, ...patch }` for one field: a present value wins. */
  function GetOr<T>(o: Option<T>, current: T): T
  {
    if o.Some? then o.value else current
  }
}
