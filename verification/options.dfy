/** The option type used wherever the program has a missing map entry, an empty channel slot
    or an early "no result" exit. */
module Options {
  datatype Option<+T> = None | Some(value: T)
}
