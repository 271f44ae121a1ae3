/** An optional value: the absent JSON field of a saved document, and the
    "not found" answer of a search. */
module Options {

  datatype Option<T> = None | Some(value: T)
}
