/** An optional value: a search that may find nothing, a parser that may fail. */
module Options {

  datatype Option<+T> = None | Some(value: T)
}
