/** An optional value: the model's stand-in for C#'s `null` and for nullable types. */
module Options {

  datatype Option<+T> = None | Some(value: T)

}
