/** The null-or-value shape the C# code uses for references that may be null. */
module Optional {
  datatype Option<+T> = None | Some(value: T)
}
