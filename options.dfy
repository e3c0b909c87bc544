/** The optional value the model uses for JavaScript's `null`/absent cases. */
module Options {
  datatype Option<+T> = None | Some(value: T)
}
