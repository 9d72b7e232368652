/** An optional value, shared by the formatter state and the console
    screen-buffer query. */
module Options {
  datatype Option<T> = None | Some(value: T)
}
