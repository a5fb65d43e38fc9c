/** Optional results, where the C code uses NULL or an all-ones value for failure. */
module Options {
  datatype Option<+T> = None | Some(value: T)
}
