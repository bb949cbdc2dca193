/** A value that may be missing: the source's NULL, std::nullopt, KeyError or error return. */
module Options {
  datatype Option<+T> = None | Some(value: T)
}
