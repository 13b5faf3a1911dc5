/** The one optional value used everywhere: nullable timers, columns and results. */
module Options {
  datatype Option<T> = None | Some(value: T)
}
