/** An optional value, for the `None` that Python's `dict.get` and the
    Telegram update's missing document return. */
module Options {

  datatype Option<T> = None | Some(value: T)

}
