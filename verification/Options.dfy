/** The value-or-nothing type used where the program signals failure with a
    boolean, an exception or a missing map key. */
module Options {
  datatype Option<+T> = None | Some(value: T)
}
