/** Optional results, for lookups and for partial application of edits. */
module Options {
  datatype Option<+T> = None | Some(value: T)
}
