/** An optional value: `None` stands for the library's sentinels (an
    infinite distance, a missing filter). */
module Options {
  datatype Option<T> = None | Some(value: T)
}
