/*
 * An optional value, shared by the tokenizer (a search that may find
 * nothing) and the job slots (a command that may not be a built-in).
 */
module Options {
  datatype Option<T> = None | Some(value: T)
}
