/** An optional value: null, undefined or a thrown error of the TypeScript code, where only its presence matters. */
module Options {
  datatype Option<+T> = None | Some(value: T)
}
