/** The optional result of the intersection test: `None` stands for the
    source's `return None`, `Some` for a returned tuple. */
module Options {

  datatype Option<+T> = None | Some(value: T)

}
